/**
 * The pagination loop of the export: request a page, strip the relevance score
 * from each of its records, push the records in order onto one object stream,
 * follow the page's `next` link while it is truthy, then call `push()` with no
 * value. On an object-mode stream that call queues `undefined` as one more chunk
 * and leaves the stream open; only `push(null)` ends it. Both endings are
 * modelled: `FetchPages` as written, `FetchPagesEnded` with the end-of-stream signal.
 */
module Pagination {
  import opened Values

  /** One response of the line API: a page of records and the link to the next page. */
  datatype Page = Page(results: seq<Object>, next: Option<string>)

  /**
   * One value pushed onto the object-mode stream: a record, or `undefined`,
   * which an object-mode stream queues like any other value but `null`.
   */
  datatype Chunk = Record(fields: Object) | Undefined

  /** The relevance-score key the line API adds to each record. */
  const ScoreKey: string := "_score"

  /** `delete result._score` */
  function Clean(r: Object): (c: Object)
    ensures ScoreKey !in c
    ensures c.Keys == r.Keys - {ScoreKey}
    ensures forall k :: k in c ==> c[k] == r[k]
  {
    r - {ScoreKey}
  }

  /** Every record of a page, cleaned, in page order. */
  function CleanAll(rs: seq<Object>): (cs: seq<Object>)
    ensures |cs| == |rs|
    ensures forall i :: 0 <= i < |rs| ==> cs[i] == Clean(rs[i])
  {
    if rs == [] then [] else CleanAll(rs[..|rs| - 1]) + [Clean(rs[|rs| - 1])]
  }

  /** The cleaned records of a sequence of pages: page by page, each page in its own order. */
  function Records(ps: seq<Page>): seq<Object>
  {
    if ps == [] then [] else Records(ps[..|ps| - 1]) + CleanAll(ps[|ps| - 1].results)
  }

  /** Records as stream chunks, one each, in the same order. */
  function Chunks(rs: seq<Object>): (cs: seq<Chunk>)
    ensures |cs| == |rs|
  {
    if rs == [] then [] else Chunks(rs[..|rs| - 1]) + [Record(rs[|rs| - 1])]
  }

  /** The `i`-th chunk is the `i`-th record. */
  lemma {:induction false} ChunksAt(rs: seq<Object>)
    ensures forall i :: 0 <= i < |rs| ==> Chunks(rs)[i] == Record(rs[i])
    decreases |rs|
  {
    if rs != [] {
      ChunksAt(rs[..|rs| - 1]);
    }
  }

  lemma ChunksAppend(a: seq<Object>, b: seq<Object>)
    ensures Chunks(a + b) == Chunks(a) + Chunks(b)
  {
    ChunksAt(a + b);
    ChunksAt(a);
    ChunksAt(b);
  }

  /** The number of results the pages hold together. */
  function TotalResults(ps: seq<Page>): nat
  {
    if ps == [] then 0 else |ps[0].results| + TotalResults(ps[1..])
  }

  /** The pagination loop stops at the first page whose link is falsy. */
  predicate Terminates(ps: seq<Page>) {
    exists k :: 0 <= k < |ps| && !Truthy(ps[k].next)
  }

  /** How many responses the loop reads: up to and including the first without a truthy link. */
  function PagesRead(ps: seq<Page>): (n: nat)
    ensures n <= |ps|
  {
    if ps == [] then 0 else if !Truthy(ps[0].next) then 1 else 1 + PagesRead(ps[1..])
  }

  /** The URLs the loop requests, starting at `url`, when the server answers with `ps` in turn. */
  function Requests(url: string, ps: seq<Page>): (r: seq<string>)
    ensures |r| >= 1 && r[0] == url
    decreases |ps|
  {
    [url] + if ps == [] || !Truthy(ps[0].next) then [] else Requests(ps[0].next.value, ps[1..])
  }

  /**
   * The object-mode readable stream the records are pushed onto: the chunks
   * queued so far, in order, and whether the end-of-stream signal has been
   * pushed. An ended stream accepts nothing more.
   */
  class RecordStream {
    var chunks: seq<Chunk>
    var ended: bool

    constructor ()
      ensures chunks == [] && !ended
    {
      chunks := [];
      ended := false;
    }

    /** Pushing any value but `null`: it is queued as the next chunk and the stream stays open. */
    method Push(c: Chunk)
      requires !ended
      modifies this
      ensures chunks == old(chunks) + [c] && !ended
    {
      chunks := chunks + [c];
    }

    /** Pushing `null`: the end-of-stream signal, which queues nothing. */
    method PushEnd()
      requires !ended
      modifies this
      ensures chunks == old(chunks) && ended
    {
      ended := true;
    }
  }

  lemma {:induction false} PagesReadAll(ps: seq<Page>)
    requires forall k :: 0 <= k < |ps| ==> Truthy(ps[k].next)
    ensures PagesRead(ps) == |ps| && !Terminates(ps)
    decreases |ps|
  {
    if ps != [] {
      assert forall k :: 0 <= k < |ps[1..]| ==> ps[1..][k] == ps[k + 1];
      PagesReadAll(ps[1..]);
    }
  }

  lemma {:induction false} PagesReadStop(ps: seq<Page>, n: nat)
    requires 0 < n <= |ps| && !Truthy(ps[n - 1].next)
    requires forall k :: 0 <= k < n - 1 ==> Truthy(ps[k].next)
    ensures PagesRead(ps) == n && Terminates(ps)
    decreases n
  {
    if n > 1 {
      assert forall k :: 0 <= k < n - 2 ==> ps[1..][k] == ps[k + 1];
      PagesReadStop(ps[1..], n - 1);
    }
  }

  /** Cleans each result of a page and pushes it onto the stream, in page order. */
  method PushPage(out: RecordStream, results: seq<Object>)
    requires !out.ended
    modifies out
    ensures out.chunks == old(out.chunks) + Chunks(CleanAll(results)) && !out.ended
  {
    ghost var start := out.chunks;
    var j := 0;
    while j < |results|
      invariant 0 <= j <= |results|
      invariant out.chunks == start + Chunks(CleanAll(results[..j])) && !out.ended
    {
      ghost var done := CleanAll(results[..j]);
      assert results[..j + 1][..j] == results[..j];
      assert CleanAll(results[..j + 1]) == done + [Clean(results[j])];
      ChunksAppend(done, [Clean(results[j])]);
      Assoc(start, Chunks(done), [Record(Clean(results[j]))]);
      out.Push(Record(Clean(results[j])));
      j := j + 1;
    }
    assert results[..j] == results;
  }

  lemma RecordsStep(ps: seq<Page>, i: nat)
    requires i < |ps|
    ensures Records(ps[..i + 1]) == Records(ps[..i]) + CleanAll(ps[i].results)
  {
    assert ps[..i + 1][..i] == ps[..i];
  }

  /** Reading one more page queues that page's cleaned records as chunks. */
  lemma ChunksStep(ps: seq<Page>, i: nat)
    requires i < |ps|
    ensures Chunks(Records(ps[..i + 1])) == Chunks(Records(ps[..i])) + Chunks(CleanAll(ps[i].results))
  {
    RecordsStep(ps, i);
    ChunksAppend(Records(ps[..i]), CleanAll(ps[i].results));
  }

  /** Pushes the cleaned results of page `i` after those of the pages before it. */
  method PushNextPage(out: RecordStream, ps: seq<Page>, i: nat)
    requires i < |ps| && out.chunks == Chunks(Records(ps[..i])) && !out.ended
    modifies out
    ensures out.chunks == Chunks(Records(ps[..i + 1])) && !out.ended
  {
    PushPage(out, ps[i].results);
    ChunksStep(ps, i);
  }

  /** The URL of the `k`-th request: the first URL, then the link of the page before. */
  function UrlAt(first: string, ps: seq<Page>, k: nat): string
    requires k <= |ps|
  {
    if k == 0 then first
    else match ps[k - 1].next
      case Some(u) => u
      case None => ""
  }

  /** The first `n` URLs requested. */
  function UrlsBefore(first: string, ps: seq<Page>, n: nat): (r: seq<string>)
    requires n <= |ps| + 1
    ensures |r| == n
  {
    if n == 0 then [] else UrlsBefore(first, ps, n - 1) + [UrlAt(first, ps, n - 1)]
  }

  lemma {:induction false} RequestsSoFar(first: string, ps: seq<Page>, j: nat)
    requires j <= |ps|
    requires forall k :: 0 <= k < j ==> Truthy(ps[k].next)
    ensures UrlsBefore(first, ps, j) + Requests(UrlAt(first, ps, j), ps[j..]) == Requests(first, ps)
    decreases j
  {
    if j > 0 {
      RequestsSoFar(first, ps, j - 1);
      var u := UrlAt(first, ps, j - 1);
      assert ps[j - 1..][0] == ps[j - 1] && ps[j - 1..][1..] == ps[j..];
      assert Requests(u, ps[j - 1..]) == [u] + Requests(UrlAt(first, ps, j), ps[j..]);
    } else {
      assert ps[0..] == ps;
    }
  }

  /** The URLs requested are the first one and each truthy link after it, in order. */
  lemma RequestsAsUrls(first: string, ps: seq<Page>, n: nat)
    requires n <= |ps| + 1 && forall k :: 0 <= k < n - 1 ==> Truthy(ps[k].next)
    requires n == |ps| + 1 || (n > 0 && !Truthy(ps[n - 1].next))
    ensures Requests(first, ps) == UrlsBefore(first, ps, n)
  {
    RequestsSoFar(first, ps, n - 1);
    assert UrlsBefore(first, ps, n) == UrlsBefore(first, ps, n - 1) + [UrlAt(first, ps, n - 1)];
    if n == |ps| + 1 {
      assert ps[n - 1..] == [];
    } else {
      assert ps[n - 1..][0] == ps[n - 1];
    }
  }

  /** The loop's exit when the responses run out: every page was read, and the failed request comes last. */
  lemma Exhausted(first: string, ps: seq<Page>, requested: seq<string>)
    requires forall k :: 0 <= k < |ps| ==> Truthy(ps[k].next)
    requires requested == UrlsBefore(first, ps, |ps|) + [UrlAt(first, ps, |ps|)]
    ensures requested == Requests(first, ps) && !Terminates(ps) && PagesRead(ps) == |ps|
  {
    PagesReadAll(ps);
    RequestsAsUrls(first, ps, |ps| + 1);
  }

  /** The loop's exit at page `n - 1`, the first whose link is falsy. */
  lemma Stopped(first: string, ps: seq<Page>, n: nat, requested: seq<string>)
    requires 0 < n <= |ps| && !Truthy(ps[n - 1].next)
    requires forall k :: 0 <= k < n - 1 ==> Truthy(ps[k].next)
    requires requested == UrlsBefore(first, ps, n - 1) + [UrlAt(first, ps, n - 1)]
    ensures requested == Requests(first, ps) && Terminates(ps) && PagesRead(ps) == n
  {
    PagesReadStop(ps, n);
    RequestsAsUrls(first, ps, n);
  }

  /**
   * The loop's progress after `i` pages: each page read had a truthy link,
   * `next` is the URL of request `i` and the first `i` URLs were requested.
   */
  ghost predicate Reading(first: string, ps: seq<Page>, i: nat, next: string, requested: seq<string>) {
    i <= |ps|
    && (forall k :: 0 <= k < i ==> Truthy(ps[k].next))
    && next == UrlAt(first, ps, i)
    && requested == UrlsBefore(first, ps, i)
  }

  /**
   * The do-while loop: request the current URL, push the page's cleaned
   * results, and follow the page's `next` link while it is truthy.
   * `responses` are the server's answers in request order; when they run out
   * the next request fails and the run stops there (`ok` is false).
   */
  method ReadPages(first: string, responses: seq<Page>, out: RecordStream) returns (requested: seq<string>, ok: bool)
    requires out.chunks == [] && !out.ended
    modifies out
    ensures requested == Requests(first, responses)
    ensures ok == Terminates(responses)
    ensures out.chunks == Chunks(Records(responses[..PagesRead(responses)])) && !out.ended
  {
    var next := first;
    var i := 0;
    requested := [];
    while true
      invariant Reading(first, responses, i, next, requested)
      invariant out.chunks == Chunks(Records(responses[..i])) && !out.ended
      decreases |responses| - i
    {
      requested := requested + [next];
      if i == |responses| {
        Exhausted(first, responses, requested);
        return requested, false;
      }
      var response := responses[i];
      PushNextPage(out, responses, i);
      i := i + 1;
      if !Truthy(response.next) {
        Stopped(first, responses, i, requested);
        return requested, true;
      }
      next := response.next.value;
    }
  }

  /** What the stream holds after the loop and the final `push()` as written: the records, then `undefined` once the loop has stopped by itself. */
  function QueuedAsWritten(ps: seq<Page>): seq<Chunk>
  {
    Chunks(Records(ps[..PagesRead(ps)])) + if Terminates(ps) then [Undefined] else []
  }

  /**
   * The loop and `push()` as written. On the object-mode stream `push()` is
   * `push(undefined)`: it queues `undefined` after the records and leaves the
   * stream open. A failed request stops the run before that call.
   */
  method FetchPages(first: string, responses: seq<Page>, out: RecordStream) returns (requested: seq<string>, ok: bool)
    requires out.chunks == [] && !out.ended
    modifies out
    ensures requested == Requests(first, responses)
    ensures ok == Terminates(responses)
    ensures out.chunks == QueuedAsWritten(responses) && !out.ended
  {
    requested, ok := ReadPages(first, responses, out);
    if ok {
      out.Push(Undefined);
    }
  }

  /**
   * The loop followed by the evidently intended `push(null)`: the stream holds
   * exactly the cleaned records of the pages read, and it has ended exactly
   * when the loop stopped by itself.
   */
  method FetchPagesEnded(first: string, responses: seq<Page>, out: RecordStream) returns (requested: seq<string>, ok: bool)
    requires out.chunks == [] && !out.ended
    modifies out
    ensures requested == Requests(first, responses)
    ensures ok == Terminates(responses)
    ensures out.chunks == Chunks(Records(responses[..PagesRead(responses)]))
    ensures out.ended == ok
  {
    requested, ok := ReadPages(first, responses, out);
    if ok {
      out.PushEnd();
    }
  }

  /**
   * As written, a run that reads every page leaves one chunk more than the
   * pages hold results, and that last chunk is `undefined`, not a record.
   */
  lemma TrailingUndefined(ps: seq<Page>)
    requires Terminates(ps)
    ensures |QueuedAsWritten(ps)| == TotalResults(ps[..PagesRead(ps)]) + 1
    ensures QueuedAsWritten(ps)[|QueuedAsWritten(ps)| - 1] == Undefined
  {
    RecordCount(ps[..PagesRead(ps)]);
  }

  /** A single empty page without a link: as written, the stream's only chunk is `undefined`. */
  lemma EmptyPageQueuesUndefined()
    ensures QueuedAsWritten([Page([], None)]) == [Undefined]
  {
    var ps := [Page([], None)];
    SinglePage("", ps[0]);
    assert Terminates(ps);
  }

  /** With `push(null)`, every chunk is a record and there are as many as the pages read hold results. */
  lemma RecordsOnly(ps: seq<Page>)
    ensures |Chunks(Records(ps[..PagesRead(ps)]))| == TotalResults(ps[..PagesRead(ps)])
    ensures forall i :: 0 <= i < |Chunks(Records(ps[..PagesRead(ps)]))| ==> Chunks(Records(ps[..PagesRead(ps)]))[i].Record?
  {
    RecordCount(ps[..PagesRead(ps)]);
    ChunksAt(Records(ps[..PagesRead(ps)]));
  }

  /**
   * At least one request is made; after the first URL each request is the
   * truthy link of the page before it; there is one request per page read,
   * plus the failed one when the responses run out before a page without a link.
   */
  lemma {:induction false} RequestsShape(url: string, ps: seq<Page>)
    ensures |Requests(url, ps)| == PagesRead(ps) + if Terminates(ps) then 0 else 1
    ensures forall k :: 0 <= k < |Requests(url, ps)| - 1 ==>
              Truthy(ps[k].next) && Requests(url, ps)[k + 1] == ps[k].next.value
    decreases |ps|
  {
    if ps == [] {
    } else if !Truthy(ps[0].next) {
      assert Terminates(ps);
      assert Requests(url, ps) == [url];
    } else {
      var rest := Requests(ps[0].next.value, ps[1..]);
      RequestsShape(ps[0].next.value, ps[1..]);
      assert Requests(url, ps) == [url] + rest;
      assert PagesRead(ps) == 1 + PagesRead(ps[1..]);
      assert Terminates(ps) == Terminates(ps[1..]) by {
        if Terminates(ps) {
          var k :| 0 <= k < |ps| && !Truthy(ps[k].next);
          assert ps[1..][k - 1] == ps[k];
        }
        if Terminates(ps[1..]) {
          var k :| 0 <= k < |ps[1..]| && !Truthy(ps[1..][k].next);
          assert ps[k + 1] == ps[1..][k];
        }
      }
      forall k | 0 <= k < |Requests(url, ps)| - 1
        ensures Truthy(ps[k].next) && Requests(url, ps)[k + 1] == ps[k].next.value
      {
        assert Requests(url, ps)[k + 1] == rest[k];
        if k > 0 {
          assert ps[1..][k - 1] == ps[k];
        }
      }
    }
  }

  /** The records of consecutive runs of pages are concatenated in page order. */
  lemma {:induction false} RecordsAppend(a: seq<Page>, b: seq<Page>)
    ensures Records(a + b) == Records(a) + Records(b)
    decreases |b|
  {
    if b == [] {
      assert a + b == a;
    } else {
      var b' := b[..|b| - 1];
      RecordsAppend(a, b');
      assert (a + b)[..|a + b| - 1] == a + b';
      assert (a + b)[|a + b| - 1] == b[|b| - 1];
      var c := CleanAll(b[|b| - 1].results);
      assert Records(a + b) == Records(a) + Records(b') + c;
      Assoc(Records(a), Records(b'), c);
    }
  }

  /** Every record pushed is the cleaned `j`-th result of page `k`, placed after all earlier pages' records. */
  lemma RecordsAt(ps: seq<Page>, k: nat, j: nat)
    requires k < |ps| && j < |ps[k].results|
    ensures |Records(ps[..k])| + j < |Records(ps)|
    ensures Records(ps)[|Records(ps[..k])| + j] == Clean(ps[k].results[j])
  {
    assert ps == ps[..k] + ([ps[k]] + ps[k + 1..]);
    RecordsAppend(ps[..k], [ps[k]] + ps[k + 1..]);
    RecordsAppend([ps[k]], ps[k + 1..]);
    assert Records([ps[k]]) == CleanAll(ps[k].results) by {
      assert [ps[k]][..0] == [];
    }
  }

  /** As many records are pushed as the pages read hold together. */
  lemma {:induction false} RecordCount(ps: seq<Page>)
    ensures |Records(ps)| == TotalResults(ps)
    decreases |ps|
  {
    if ps != [] {
      RecordCount(ps[1..]);
      assert ps == [ps[0]] + ps[1..];
      RecordsAppend([ps[0]], ps[1..]);
      assert [ps[0]][..0] == [];
    }
  }

  /** No record pushed carries the relevance score; every other key keeps its value. */
  lemma {:induction false} RecordsCleaned(ps: seq<Page>)
    ensures forall r :: r in Records(ps) ==> ScoreKey !in r
    decreases |ps|
  {
    if ps != [] {
      RecordsCleaned(ps[..|ps| - 1]);
      var last := CleanAll(ps[|ps| - 1].results);
      forall r | r in last ensures ScoreKey !in r {
        var i :| 0 <= i < |last| && last[i] == r;
      }
    }
  }

  /** A single page without a link: one request, and its cleaned records, in order. */
  lemma SinglePage(url: string, p: Page)
    requires !Truthy(p.next)
    ensures Requests(url, [p]) == [url]
    ensures PagesRead([p]) == 1 && Terminates([p])
    ensures Records([p][..PagesRead([p])]) == CleanAll(p.results)
  {
    assert [p][..1] == [p] && [p][..0] == [];
    assert !Truthy([p][0].next);
  }
}
