/** A parsed query string (query-string's `parse`): each key maps to its value, `None`
    standing for a key written without a value (which parses to null). */
module Query {
  type Query = map<string, Option<string>>

  import opened Wrappers

  /** The key occurs in the query, with or without a value. */
  predicate Has(q: Query, key: string) {
    key in q
  }

  /** JavaScript truthiness of `params[key]`: present with a non-empty value. */
  predicate Truthy(q: Query, key: string) {
    key in q && q[key].Some? && q[key].value != ""
  }
}
