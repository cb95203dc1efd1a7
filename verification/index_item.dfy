/**
 * A content item of the site's JSON index (`/query-index.json`): a mapping
 * from field names to a string or a list of strings.
 */
module IndexItem {
  import opened JsString

  datatype Val = Str(s: string) | Strs(items: seq<string>)

  type Item = map<string, Val>

  /** JavaScript truthiness: the empty string is falsy, every array is truthy. */
  predicate Truthy(v: Val) {
    v.Strs? || v.s != ""
  }

  /** `String(v)`: a list becomes its elements joined with commas. */
  function ToJsString(v: Val): string {
    match v
    case Str(s) => s
    case Strs(xs) => Join(xs, ",")
  }

  /** `` `${item[f]}` ``: a missing field reads as `"undefined"`. */
  function TemplateText(item: Item, f: string): string {
    if f in item then ToJsString(item[f]) else "undefined"
  }
}
