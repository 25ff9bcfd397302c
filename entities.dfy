/**
 * The persistent entities of the weather service. The JPA entity classes are plain
 * records with setters; here they are values, and "setting a field" is a datatype update.
 */
module Entities {
  import opened Wrappers

  /**
   * A number as Double.parseDouble produces it. Its floating-point meaning is not
   * part of this model; the import only moves such values from the parser into a record.
   */
  type Double(==)

  /** A calendar date as LocalDate.parse produces it; calendar rules are not part of this model. */
  type LocalDate(==)

  /** A city; `id` is None until the repository has assigned one. */
  datatype City = City(id: Option<int>, name: string, province: string, description: string)

  /** One weather observation of one city on one day. */
  datatype WeatherData = WeatherData(
    id: Option<int>,
    city: City,
    date: LocalDate,
    temperature: Double,
    humidity: Double,
    weather: string,
    windDirection: string,
    windSpeed: Double)

  /** The exceptions a service call can raise. */
  datatype Error =
    | NotFound(id: int)      // ResourceNotFoundException for the given id
    | PersistenceFault       // the repository failed to store a batch
}
