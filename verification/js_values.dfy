/** Request fields as the server receives them from the JSON body parser
    or from the query string. */
module JsValues {

  /** A request field: absent (JavaScript `undefined`) or a string. */
  datatype JsValue = Undefined | Str(s: string)

  /** JavaScript truthiness of a request field: `undefined` and the empty
      string are falsy, every other string is truthy. */
  predicate Truthy(v: JsValue) {
    v.Str? && v.s != ""
  }
}
