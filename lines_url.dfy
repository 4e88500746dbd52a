/**
 * The URL of the first request to the dataset's line API: the dataset href, the
 * fixed page size, the selected fields joined by commas and an optional
 * `qs=field:value` filter.
 */
module LinesUrl {
  import opened Values

  /** The page size written into the first request. */
  const PageSize: string := "1000"

  /** A user filter on one column; both parts are strings, truthy when non-empty. */
  datatype Filter = Filter(field: string, value: string)

  /** The strings of `xs` with `sep` between each two, as arrays join in JavaScript. */
  function Join(xs: seq<string>, sep: char): (r: string)
    decreases |xs|
  {
    if |xs| == 0 then ""
    else if |xs| == 1 then xs[0]
    else xs[0] + [sep] + Join(xs[1..], sep)
  }

  /** JavaScript string splitting at `sep`: the pieces of `s` between occurrences of `sep`; never empty. */
  function Split(s: string, sep: char): (r: seq<string>)
    ensures |r| >= 1
  {
    if s == [] then [""]
    else if s[0] == sep then [""] + Split(s[1..], sep)
    else
      var t := Split(s[1..], sep);
      [[s[0]] + t[0]] + t[1..]
  }

  /** Splits `p` at its first `c` into the text before and the text after it. */
  function SplitAtFirst(p: string, c: char): (string, string)
  {
    if p == [] then ("", "")
    else if p[0] == c then ("", p[1..])
    else
      var kv := SplitAtFirst(p[1..], c);
      ([p[0]] + kv.0, kv.1)
  }

  /** True when no string of `xs` contains `c`. */
  predicate Free(xs: seq<string>, c: char) {
    forall i :: 0 <= i < |xs| ==> c !in xs[i]
  }

  /** The filter suffix is added only when the filter, its field and its value are all truthy. */
  predicate FilterApplies(filter: Option<Filter>) {
    filter.Some? && filter.value.field != "" && filter.value.value != ""
  }

  /** The URL the first page is requested from. */
  function FirstUrl(href: string, fields: seq<string>, filter: Option<Filter>): string
  {
    var url := href + "/lines?size=" + PageSize + "&select=" + Join(fields, ',');
    if FilterApplies(filter) then url + "&qs=" + filter.value.field + ":" + filter.value.value
    else url
  }

  /** The query parameters the line API reads back from a URL under `href`, in order. */
  function QueryOf(url: string, href: string): Option<seq<(string, string)>>
  {
    var base := href + "/lines?";
    if |base| <= |url| && url[..|base|] == base then Some(Params(Split(url[|base|..], '&')))
    else None
  }

  /** Each `key=value` piece read as a pair, split at its first `=`. */
  function Params(ps: seq<string>): (r: seq<(string, string)>)
    ensures |r| == |ps| && forall i :: 0 <= i < |ps| ==> r[i] == SplitAtFirst(ps[i], '=')
  {
    if ps == [] then [] else [SplitAtFirst(ps[0], '=')] + Params(ps[1..])
  }

  /** The parameters `FirstUrl` is meant to send, key by key. */
  function IntendedQuery(fields: seq<string>, filter: Option<Filter>): seq<(string, string)>
  {
    [("size", PageSize), ("select", Join(fields, ','))]
      + if FilterApplies(filter) then [("qs", filter.value.field + ":" + filter.value.value)] else []
  }

  lemma {:induction false} SplitPrefix(w: string, tail: string, sep: char)
    requires sep !in w
    ensures Split(w + tail, sep) == [w + Split(tail, sep)[0]] + Split(tail, sep)[1..]
    decreases |w|
  {
    var s := Split(tail, sep);
    if w != [] {
      assert (w + tail)[0] == w[0] && (w + tail)[1..] == w[1..] + tail;
      SplitPrefix(w[1..], tail, sep);
      var t := Split(w[1..] + tail, sep);
      assert t == [w[1..] + s[0]] + s[1..];
      assert t[0] == w[1..] + s[0] && t[1..] == s[1..];
      assert [w[0]] + (w[1..] + s[0]) == w + s[0];
    } else {
      assert w + tail == tail;
      assert w + s[0] == s[0];
      assert s == [s[0]] + s[1..];
    }
  }

  /** Splitting a joined list gives the list back, when no element contains the separator. */
  lemma {:induction false} SplitJoin(xs: seq<string>, sep: char)
    requires |xs| >= 1 && Free(xs, sep)
    ensures Split(Join(xs, sep), sep) == xs
    decreases |xs|
  {
    if |xs| == 1 {
      SplitPrefix(xs[0], "", sep);
      assert xs[0] + "" == xs[0];
    } else {
      var rest := Join(xs[1..], sep);
      SplitJoin(xs[1..], sep);
      assert xs[0] + [sep] + rest == xs[0] + ([sep] + rest);
      SplitPrefix(xs[0], [sep] + rest, sep);
      assert ([sep] + rest)[0] == sep && ([sep] + rest)[1..] == rest;
      var t := Split([sep] + rest, sep);
      assert t == [""] + xs[1..];
      assert t[0] == "" && t[1..] == xs[1..];
      assert xs[0] + "" == xs[0];
      assert xs == [xs[0]] + xs[1..];
    }
  }

  lemma {:induction false} SplitAtFirstOf(k: string, v: string, c: char)
    requires c !in k
    ensures SplitAtFirst(k + [c] + v, c) == (k, v)
    decreases |k|
  {
    if k == [] {
      assert k + [c] + v == [c] + v;
    } else {
      assert (k + [c] + v)[1..] == k[1..] + [c] + v;
      SplitAtFirstOf(k[1..], v, c);
      assert [k[0]] + k[1..] == k;
    }
  }

  lemma {:induction false} JoinFree(xs: seq<string>, sep: char, c: char)
    requires Free(xs, c) && sep != c
    ensures c !in Join(xs, sep)
    decreases |xs|
  {
    if |xs| > 1 {
      JoinFree(xs[1..], sep, c);
    }
  }

  /** The `key=value` pieces of the first URL's query string, in order. */
  function QueryParts(fields: seq<string>, filter: Option<Filter>): seq<string>
  {
    ["size=" + PageSize, "select=" + Join(fields, ',')]
      + if FilterApplies(filter) then ["qs=" + filter.value.field + ":" + filter.value.value] else []
  }

  lemma UrlFromParts(href: string, fields: seq<string>, filter: Option<Filter>)
    ensures FirstUrl(href, fields, filter) == href + "/lines?" + Join(QueryParts(fields, filter), '&')
  {
    var parts := QueryParts(fields, filter);
    var size := "size=" + PageSize;
    var select := "select=" + Join(fields, ',');
    var url := href + "/lines?size=" + PageSize + "&select=" + Join(fields, ',');
    assert "/lines?size=" == "/lines?" + "size=";
    assert "&select=" == "&" + "select=";
    assert url == href + "/lines?" + (size + "&" + select);
    if FilterApplies(filter) {
      var fv := filter.value.field + ":" + filter.value.value;
      var qs := "qs=" + fv;
      assert "qs=" + filter.value.field + ":" + filter.value.value == qs;
      assert parts == [size, select, qs];
      assert parts[1..] == [select, qs] && parts[1..][1..] == [qs];
      assert Join(parts[1..], '&') == select + "&" + qs;
      assert Join(parts, '&') == size + "&" + (select + "&" + qs);
      assert "&qs=" == "&" + "qs=";
      assert FirstUrl(href, fields, filter) == url + "&qs=" + fv;
    } else {
      assert parts == [size, select];
      assert Join(parts, '&') == size + "&" + select;
    }
  }

  lemma ReadBackParts(href: string, parts: seq<string>)
    requires |parts| >= 1 && Free(parts, '&')
    ensures QueryOf(href + "/lines?" + Join(parts, '&'), href) == Some(Params(parts))
  {
    var base := href + "/lines?";
    var url := base + Join(parts, '&');
    assert url[..|base|] == base;
    assert url[|base|..] == Join(parts, '&');
    SplitJoin(parts, '&');
  }

  lemma ParamsOfParts(fields: seq<string>, filter: Option<Filter>)
    ensures Params(QueryParts(fields, filter)) == IntendedQuery(fields, filter)
  {
    var parts := QueryParts(fields, filter);
    SplitAtFirstOf("size", PageSize, '=');
    SplitAtFirstOf("select", Join(fields, ','), '=');
    assert parts[0] == "size" + ['='] + PageSize;
    assert parts[1] == "select" + ['='] + Join(fields, ',');
    if FilterApplies(filter) {
      var fv := filter.value.field + ":" + filter.value.value;
      SplitAtFirstOf("qs", fv, '=');
      assert parts[2] == "qs" + ['='] + fv;
    }
    var q := IntendedQuery(fields, filter);
    assert |Params(parts)| == |q|;
    forall i | 0 <= i < |q| ensures Params(parts)[i] == q[i] {
      assert Params(parts)[i] == SplitAtFirst(parts[i], '=');
    }
  }

  /**
   * The line API reads back from the first URL exactly the page size, the
   * selected fields and, only when the filter applies, the filter, provided
   * the field names and the filter contain no `&`.
   */
  lemma FirstUrlQuery(href: string, fields: seq<string>, filter: Option<Filter>)
    requires Free(fields, '&')
    requires filter.Some? ==> '&' !in filter.value.field && '&' !in filter.value.value
    ensures QueryOf(FirstUrl(href, fields, filter), href) == Some(IntendedQuery(fields, filter))
  {
    var parts := QueryParts(fields, filter);
    JoinFree(fields, ',', '&');
    assert Free(parts, '&');
    UrlFromParts(href, fields, filter);
    ReadBackParts(href, parts);
    ParamsOfParts(fields, filter);
  }

  /** The `select` parameter gives the server back the exact, ordered field list. */
  lemma SelectedFields(fields: seq<string>)
    requires |fields| >= 1 && Free(fields, ',')
    ensures Split(IntendedQuery(fields, None)[1].1, ',') == fields
  {
    SplitJoin(fields, ',');
  }

  /** The filter suffix is appended if and only if filter, field and value are all truthy. */
  lemma FilterSuffix(href: string, fields: seq<string>, filter: Option<Filter>)
    requires Free(fields, '&')
    requires filter.Some? ==> '&' !in filter.value.field && '&' !in filter.value.value
    ensures FilterApplies(filter) <==> |QueryOf(FirstUrl(href, fields, filter), href).value| == 3
    ensures !FilterApplies(filter) ==> FirstUrl(href, fields, filter) == FirstUrl(href, fields, None)
  {
    FirstUrlQuery(href, fields, filter);
  }
}
