/** The values every component stores: optional results, JSON trees and file contents. */
module Values {

  datatype Option<+T> = None | Some(value: T)

  datatype Result<+T, +E> = Ok(value: T) | Err(error: E)

  /** JSON and YAML data. Objects are maps, because canonical encodings sort their keys. */
  datatype Json =
    | Null
    | Bool(flag: bool)
    | Number(number: int)
    | Text(text: string)
    | Array(items: seq<Json>)
    | Object(fields: map<string, Json>)
}
