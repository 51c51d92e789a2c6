/**
 * The parts of Go's `net/http` and `net/url` the interceptor touches: a request's header
 * (a string-keyed multimap updated in place) and its query parameters, plus two status codes.
 * Header-key canonicalisation is not modelled: keys are taken as already canonical.
 */
module Http {

  /** `http.Header` and `url.Values` are both `map[string][]string`. */
  type Multimap = map<string, seq<string>>

  const StatusNotFound: int := 404
  const StatusInternalServerError: int := 500

  /** `Header.Get` / `Values.Get`: the first value stored under key, or "" when there is none. */
  function Lookup(m: Multimap, key: string): string
  {
    if key in m && m[key] != [] then m[key][0] else ""
  }

  /** The multimap after `Header.Add(key, value)`: value appended to those already under key. */
  function Appended(m: Multimap, key: string, value: string): (r: Multimap)
    ensures r.Keys == m.Keys + {key}
    ensures r[key] == (if key in m then m[key] else []) + [value]
    ensures forall k :: k in m && k != key ==> r[k] == m[k]
  {
    m[key := (if key in m then m[key] else []) + [value]]
  }

  /** A request's header, which handlers and interceptors change in place. */
  class Header {
    var values: Multimap

    constructor (init: Multimap)
      ensures values == init
    {
      values := init;
    }

    function Get(key: string): string
      reads this
    {
      Lookup(values, key)
    }

    /** `Header.Add`: appends value to the values under key. */
    method Add(key: string, value: string)
      modifies this
      ensures values == Appended(old(values), key, value)
    {
      values := Appended(values, key, value);
    }

    /** `Header.Del`: removes key and all its values. */
    method Del(key: string)
      modifies this
      ensures values == old(values) - {key}
    {
      values := values - {key};
    }
  }

  /** An inbound `*http.Request`: its header object and its decoded URL query. */
  class Request {
    const header: Header
    const query: Multimap

    constructor (header: Header, query: Multimap)
      ensures this.header == header && this.query == query
    {
      this.header := header;
      this.query := query;
    }
  }
}
