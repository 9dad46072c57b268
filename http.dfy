/** HTTP response headers, as the handlers set them with Header().Set. */
module Http {
  import opened Wrappers

  datatype Header = Header(key: string, value: string)

  /** The value of the first header with `key`, as a client reads it. */
  function HeaderValue(headers: seq<Header>, key: string): Option<string>
  {
    if headers == [] then None
    else if headers[0].key == key then Some(headers[0].value)
    else HeaderValue(headers[1..], key)
  }

  /** A header whose key no earlier header has is found with its own value. */
  lemma {:induction false} HeaderValueAt(headers: seq<Header>, i: nat)
    requires i < |headers|
    requires forall j :: 0 <= j < i ==> headers[j].key != headers[i].key
    ensures HeaderValue(headers, headers[i].key) == Some(headers[i].value)
    decreases i
  {
    if i > 0 {
      HeaderValueAt(headers[1..], i - 1);
    }
  }
}
