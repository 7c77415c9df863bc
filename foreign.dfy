/**
 * The library and system calls the checkin code makes, as uninterpreted
 * functions: `strftime`, `File.expand_path`, `to_s` of values the model does
 * not render itself, `Weather#to_s`, `YAML.dump`, `Time.parse`, `JSON.parse`
 * and `JSON.pretty_generate`.
 */
module Foreign {
  import opened Clock
  import opened OrderedHash
  import opened Answers
  import JournalWeather
  import opened JournalRecord

  datatype Env = Env(
    strftime: (Instant, string) -> string,
    expandPath: string -> string,
    toS: Value -> string,
    weatherToS: JournalWeather.WeatherData -> string,
    yamlDump: Hash<Value> -> string,
    parseTime: string -> Instant,
    jsonParse: string -> seq<StoredRecord>,
    jsonGenerate: seq<Record> -> string)
}
