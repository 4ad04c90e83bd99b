/** The JSON values a configuration document is made of (no floating point). */
module Json {
  import opened Dicts

  datatype JVal =
    | JNull
    | JBool(b: bool)
    | JInt(i: int)
    | JStr(s: string)
    | JList(items: seq<JVal>)
    | JObj(fields: Dict<JVal>)
}
