/** JSON documents as the benchmark driver loads them. */
module Json {
  import opened Wrappers

  /** `Scalar` stands for numbers, booleans and null, known by their printed form. */
  datatype Json =
    | Str(text: string)
    | Scalar(printed: string)
    | List(items: seq<Json>)
    | Dict(fields: map<string, Json>)

  /** What a tree has at a path of keys. */
  function At(tree: Json, path: seq<string>): Option<Json> {
    if path == [] then Some(tree)
    else if tree.Dict? && path[0] in tree.fields then At(tree.fields[path[0]], path[1..])
    else None
  }
}
