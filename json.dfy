/** The JSON-like tree that `JSONSerialization.jsonObject` produces and that the
    keyed coding containers read and write: objects are string-keyed maps, and
    everything else (null, booleans, numbers, strings, arrays) is a leaf as far
    as merging is concerned. */
module Json {

  datatype JVal =
    | Null
    | Bool(b: bool)
    | Num(n: real)         // a JSON number; carried, never computed on
    | Str(s: string)
    | Arr(items: seq<JVal>)
    | Obj(fields: map<string, JVal>)
}
