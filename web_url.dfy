/**
 * The parts of a parsed URL that the YouTube helpers read. The URL parser
 * itself is not modelled: a caller passes it in as a partial function from
 * strings to `Url`. A `Url` holds the host name (lower-cased by the parser),
 * the path and the raw query string without its `?`; `searchParams` is that
 * query read as `application/x-www-form-urlencoded` (section 5.1 of the
 * WHATWG URL Standard).
 */
module WebUrl {
  import opened Wrappers
  import opened JsText

  datatype Url = Url(hostname: string, pathname: string, search: string)

  /** Replaces every `+` with a space. */
  function PlusToSpace(s: string): (r: string)
    ensures |r| == |s|
    ensures forall i :: 0 <= i < |s| ==> r[i] == if s[i] == '+' then ' ' else s[i]
  {
    if s == [] then [] else [if s[0] == '+' then ' ' else s[0]] + PlusToSpace(s[1..])
  }

  /** One `&`-separated sequence as a name/value pair: split on its first `=`, or all name when it has none. */
  function NameValue(bytes: string): (string, string)
  {
    if '=' in bytes then
      var k := FirstIndex(bytes, '=');
      (PlusToSpace(bytes[..k]), PlusToSpace(bytes[k + 1..]))
    else (PlusToSpace(bytes), "")
  }

  /** The name/value pairs of a query string, in order; empty sequences between `&`s are skipped. */
  function ParseQuery(s: string): seq<(string, string)>
    decreases |s|
  {
    if '&' in s then
      var k := FirstIndex(s, '&');
      (if k == 0 then [] else [NameValue(s[..k])]) + ParseQuery(s[k + 1..])
    else if s == [] then []
    else [NameValue(s)]
  }

  /** `url.searchParams` as a list of pairs. */
  function Query(u: Url): seq<(string, string)>
  {
    ParseQuery(u.search)
  }

  /** `searchParams.has(name)`. */
  predicate Has(query: seq<(string, string)>, name: string)
  {
    exists i :: 0 <= i < |query| && query[i].0 == name
  }

  /** `searchParams.get(name)`: the value of the first pair with that name, or `None`. */
  function Get(query: seq<(string, string)>, name: string): (v: Option<string>)
    ensures v.Some? <==> Has(query, name)
  {
    if query == [] then None
    else if query[0].0 == name then Some(query[0].1)
    else
      var rest := Get(query[1..], name);
      assert Has(query[1..], name) ==> Has(query, name) by {
        if Has(query[1..], name) {
          var i :| 0 <= i < |query[1..]| && query[1..][i].0 == name;
          assert query[i + 1].0 == name;
        }
      }
      rest
  }

  /** What `get` returns is the value of a pair with that name, and no earlier pair has that name. */
  lemma {:induction false} GetFirst(query: seq<(string, string)>, name: string)
    requires Get(query, name).Some?
    ensures exists i :: 0 <= i < |query| && query[i] == (name, Get(query, name).value)
                        && forall j :: 0 <= j < i ==> query[j].0 != name
  {
    if query[0].0 != name {
      GetFirst(query[1..], name);
      var i :| 0 <= i < |query[1..]| && query[1..][i] == (name, Get(query, name).value)
               && forall j :: 0 <= j < i ==> query[1..][j].0 != name;
      assert query[i + 1] == (name, Get(query, name).value);
      assert forall j :: 0 <= j < i + 1 ==> query[j].0 != name by {
        forall j | 0 <= j < i + 1 ensures query[j].0 != name {
          if j > 0 {
            assert query[j] == query[1..][j - 1];
          }
        }
      }
    } else {
      assert query[0] == (name, Get(query, name).value);
    }
  }

  /** `hostname.replace(/^www\./, '')`: drops one leading `www.`. */
  function StripWww(host: string): (h: string)
    ensures StartsWith(host, "www.") ==> "www." + h == host
    ensures !StartsWith(host, "www.") ==> h == host
  {
    if StartsWith(host, "www.") then host[4..] else host
  }

  /** A character of a YouTube video id: `[A-Za-z0-9_-]`. */
  predicate IsIdChar(c: char)
  {
    'a' <= c <= 'z' || 'A' <= c <= 'Z' || '0' <= c <= '9' || c == '_' || c == '-'
  }

  predicate IsVideoId(id: string)
  {
    id != [] && forall i :: 0 <= i < |id| ==> IsIdChar(id[i])
  }

  /** A video id holds neither query delimiter nor `+`. */
  lemma IdHasNoDelimiters(id: string)
    requires IsVideoId(id)
    ensures '&' !in id && '=' !in id && PlusToSpace(id) == id
  {
    forall i | 0 <= i < |id| ensures id[i] != '&' && id[i] != '=' && id[i] != '+' {
      assert IsIdChar(id[i]);
    }
  }

  /** `<name>=<id>`, for a name without delimiters, reads back as the single pair `(name, id)`. */
  lemma QueryOfPair(name: string, id: string)
    requires IsVideoId(id) && name != [] && '&' !in name && '=' !in name && PlusToSpace(name) == name
    ensures ParseQuery(name + "=" + id) == [(name, id)]
  {
    var s := name + "=" + id;
    IdHasNoDelimiters(id);
    assert '&' !in s;
    var k := |name|;
    assert s[k] == '=' && '=' !in s[..k];
    assert s[..k + 1][k] == '=';
    assert FirstIndex(s, '=') == k;
    assert s[..k] == name && s[k + 1..] == id;
  }

  /** A non-empty sequence without `&` followed by `&` contributes its one pair ahead of the rest. */
  lemma ParseQueryAmp(first: string, rest: string)
    requires first != [] && '&' !in first
    ensures ParseQuery(first + "&" + rest) == ParseQuery(first) + ParseQuery(rest)
  {
    var q := first + "&" + rest;
    var k := |first|;
    assert q[k] == '&' && q[..k] == first;
    assert q[..k + 1][k] == '&';
    assert FirstIndex(q, '&') == k;
    assert q[k + 1..] == rest;
  }

  /** A query `v=<id>` reads back as the single pair `("v", id)`. */
  lemma QueryOfVideoId(id: string)
    requires IsVideoId(id)
    ensures ParseQuery("v=" + id) == [("v", id)]
  {
    assert PlusToSpace("v") == "v";
    QueryOfPair("v", id);
    assert "v" + "=" + id == "v=" + id;
  }
}
