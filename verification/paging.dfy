/**
 The request loop every paginated action runs:

   while not done: build the URL, fetch, fail on an exception or a `null`
   response, map and append every result of the page, done := isDone(page).

 The server is an oracle: a finite script of exchanges, one per request,
 each carrying the clock reading used for that request's URL and the reply.
 `urlFor` builds the signed URL of the action from a clock reading.
 The query never carries an offset, so every request asks for the same
 thing and whether the loop stops is up to the server alone. A script that
 runs out before a final page stands for a loop that has not stopped.
 */
module Paging {
  import opened Common
  import opened Wire
  import opened ScrapingAction
  import Authorization

  /** How a run ended: with a value, with an exception (and no partial
      list), or not yet, when the script ran out before a final page. */
  datatype Status<T> = Done(value: T) | Failed(error: Error) | Unfinished

  /** The URLs requested, in order, and how the run ended. */
  datatype Run<T> = Run(sent: seq<string>, status: Status<T>)

  /** A reply that keeps the loop going: a page that is not the last. */
  predicate Continues<W>(r: Reply<W>) {
    r.Response? && !IsDone(r.page)
  }

  /** A reply that ends the loop normally: the last page. */
  predicate Finishes<W>(r: Reply<W>) {
    r.Response? && IsDone(r.page)
  }

  /** The exception a reply raises, if any. */
  function FailureOf<W>(r: Reply<W>): Option<Error> {
    match r
    case TransportFailure => Some(FailedToGetResponse)
    case NullResponse => Some(FailedToReceiveResponse)
    case Response(_) => None
  }

  /** The `forEach` over one page's results. */
  function MapEach<W, M>(xs: seq<W>, f: W -> M): (ys: seq<M>)
    ensures |ys| == |xs| && forall i :: 0 <= i < |xs| ==> ys[i] == f(xs[i])
  {
    seq(|xs|, i requires 0 <= i < |xs| => f(xs[i]))
  }

  /** The mapped results of the first `n` pages, in server order. */
  function Collected<W, M>(script: seq<Exchange<W>>, n: nat, f: W -> M): seq<M>
    requires n <= |script|
    requires forall k :: 0 <= k < n ==> script[k].reply.Response?
  {
    if n == 0 then [] else Collected(script, n - 1, f) + MapEach(script[n - 1].reply.page.results, f)
  }

  /** The URLs of the first `n` requests. */
  function Urls<W>(urlFor: Int64 -> string, script: seq<Exchange<W>>, n: nat): (us: seq<string>)
    requires n <= |script|
    ensures |us| == n
    ensures forall i :: 0 <= i < n ==> us[i] == urlFor(script[i].clock)
  {
    seq(n, i requires 0 <= i < n => urlFor(script[i].clock))
  }

  /** What a run of the loop against `script` must look like: one request
      per exchange, every request built from the same path and parameters,
      every page before the last one a non-final page, and the ending
      decided by the last exchange consulted. */
  ghost predicate Describes<W, M>(urlFor: Int64 -> string, script: seq<Exchange<W>>, f: W -> M, r: Run<seq<M>>)
  {
    var n := |r.sent|;
    && n <= |script|
    && r.sent == Urls(urlFor, script, n)
    && (forall k :: 0 <= k < n - 1 ==> Continues(script[k].reply))
    && match r.status
       case Unfinished =>
         n == |script| && forall k :: 0 <= k < n ==> Continues(script[k].reply)
       case Failed(e) =>
         n >= 1 && FailureOf(script[n - 1].reply) == Some(e)
       case Done(v) =>
         && n >= 1 && Finishes(script[n - 1].reply)
         && v == Collected(script, n, f)
  }

  /** Appending one more page to the collected results of the rest. */
  lemma {:induction false} CollectedCons<W, M>(script: seq<Exchange<W>>, n: nat, f: W -> M)
    requires 1 <= n <= |script|
    requires forall k :: 0 <= k < n ==> script[k].reply.Response?
    ensures Collected(script, n, f)
      == MapEach(script[0].reply.page.results, f) + Collected(script[1..], n - 1, f)
  {
    if n > 1 {
      CollectedCons(script, n - 1, f);
      assert script[1..][n - 2] == script[n - 1];
    }
  }

  /** The run that starts with a non-final page whose mapped results are
      `mapped`, requested at `url`, and goes on as `rest`. */
  function Prepend<M>(url: string, mapped: seq<M>, rest: Run<seq<M>>): Run<seq<M>> {
    Run([url] + rest.sent,
        match rest.status
        case Done(v) => Done(mapped + v)
        case Failed(e) => Failed(e)
        case Unfinished => Unfinished)
  }

  lemma UrlsCons<W>(urlFor: Int64 -> string, script: seq<Exchange<W>>, n: nat)
    requires 1 <= n <= |script|
    ensures Urls(urlFor, script, n) == [urlFor(script[0].clock)] + Urls(urlFor, script[1..], n - 1)
  {
    var u, v := Urls(urlFor, script, n), [urlFor(script[0].clock)] + Urls(urlFor, script[1..], n - 1);
    forall k | 1 <= k < n ensures u[k] == v[k] {
      assert script[k] == script[1..][k - 1];
    }
  }

  lemma UrlsSnoc<W>(urlFor: Int64 -> string, script: seq<Exchange<W>>, n: nat)
    requires n < |script|
    ensures Urls(urlFor, script, n + 1) == Urls(urlFor, script, n) + [urlFor(script[n].clock)]
  {
  }

  /** A non-final first page extends a run of the remaining script. */
  lemma PrependDescribes<W, M>(urlFor: Int64 -> string, script: seq<Exchange<W>>, f: W -> M, rest: Run<seq<M>>)
    requires |script| >= 1 && Continues(script[0].reply)
    requires Describes(urlFor, script[1..], f, rest)
    ensures Describes(urlFor, script, f,
      Prepend(urlFor(script[0].clock), MapEach(script[0].reply.page.results, f), rest))
  {
    var r := Prepend(urlFor(script[0].clock), MapEach(script[0].reply.page.results, f), rest);
    var n := |r.sent|;
    var tail := script[1..];
    UrlsCons(urlFor, script, n);
    forall k | 1 <= k < n ensures Continues(script[k].reply) || k == n - 1 {
      assert script[k] == tail[k - 1];
    }
    match rest.status {
      case Unfinished =>
        forall k | 1 <= k < n ensures Continues(script[k].reply) {
          assert script[k] == tail[k - 1];
        }
      case Failed(e) =>
        assert script[n - 1] == tail[n - 2];
      case Done(v) =>
        assert script[n - 1] == tail[n - 2];
        CollectedCons(script, n, f);
    }
  }

  /** The loop as a function, request by request. */
  function Drive<W, M>(urlFor: Int64 -> string, script: seq<Exchange<W>>, f: W -> M): (r: Run<seq<M>>)
    ensures Describes(urlFor, script, f, r)
    decreases |script|
  {
    if |script| == 0 then Run([], Unfinished)
    else
      var url := urlFor(script[0].clock);
      match script[0].reply
      case TransportFailure => Run([url], Failed(FailedToGetResponse))
      case NullResponse => Run([url], Failed(FailedToReceiveResponse))
      case Response(p) =>
        var mapped := MapEach(p.results, f);
        if IsDone(p) then
          assert Collected(script, 1, f) == mapped;
          Run([url], Done(mapped))
        else
          var rest := Drive(urlFor, script[1..], f);
          PrependDescribes(urlFor, script, f, rest);
          Prepend(url, mapped, rest)
  }

  /** The description pins the run down: there is only one run a script
      allows. */
  lemma DescribesUnique<W, M>(urlFor: Int64 -> string, script: seq<Exchange<W>>, f: W -> M, r1: Run<seq<M>>, r2: Run<seq<M>>)
    requires Describes(urlFor, script, f, r1)
    requires Describes(urlFor, script, f, r2)
    ensures r1 == r2
  {
  }

  /** The run that stops at exchange `i` with an exception. */
  lemma FailedRunDescribed<W, M>(urlFor: Int64 -> string, script: seq<Exchange<W>>, f: W -> M, i: nat, e: Error)
    requires i < |script| && forall k :: 0 <= k < i ==> Continues(script[k].reply)
    requires FailureOf(script[i].reply) == Some(e)
    ensures Describes(urlFor, script, f, Run(Urls(urlFor, script, i + 1), Failed(e)))
  {
  }

  /** The run that stops at exchange `i` with the last page. */
  lemma DoneRunDescribed<W, M>(urlFor: Int64 -> string, script: seq<Exchange<W>>, f: W -> M, i: nat)
    requires i < |script| && forall k :: 0 <= k < i ==> Continues(script[k].reply)
    requires Finishes(script[i].reply)
    requires forall k :: 0 <= k <= i ==> script[k].reply.Response?
    ensures Describes(urlFor, script, f, Run(Urls(urlFor, script, i + 1), Done(Collected(script, i + 1, f))))
  {
  }

  /** The run that has used up the script without a last page. */
  lemma UnfinishedRunDescribed<W, M>(urlFor: Int64 -> string, script: seq<Exchange<W>>, f: W -> M)
    requires forall k :: 0 <= k < |script| ==> Continues(script[k].reply)
    ensures Describes(urlFor, script, f, Run(Urls(urlFor, script, |script|), Unfinished))
  {
  }

  /** A described run is the run `Drive` computes. */
  lemma DescribedIsDriven<W, M>(urlFor: Int64 -> string, script: seq<Exchange<W>>, f: W -> M, r: Run<seq<M>>)
    requires Describes(urlFor, script, f, r)
    ensures r == Drive(urlFor, script, f)
  {
    DescribesUnique(urlFor, script, f, r, Drive(urlFor, script, f));
  }

  lemma MapEachSnoc<W, M>(xs: seq<W>, j: nat, f: W -> M)
    requires j < |xs|
    ensures MapEach(xs[..j + 1], f) == MapEach(xs[..j], f) + [f(xs[j])]
  {
  }

  /** The `while (!done)` loop with the inner `forEach`, appending to one
      result list. It computes the same run as `Drive`. */
  method Fetch<W, M>(urlFor: Int64 -> string, script: seq<Exchange<W>>, f: W -> M) returns (r: Run<seq<M>>)
    ensures Describes(urlFor, script, f, r)
    ensures r == Drive(urlFor, script, f)
  {
    var result: seq<M> := [];
    var sent: seq<string> := [];
    var i := 0;
    while i < |script|
      invariant 0 <= i <= |script|
      invariant sent == Urls(urlFor, script, i)
      invariant forall k :: 0 <= k < i ==> Continues(script[k].reply)
      invariant result == Collected(script, i, f)
    {
      var url := urlFor(script[i].clock);
      sent := sent + [url];
      UrlsSnoc(urlFor, script, i);
      match script[i].reply {
        case TransportFailure =>
          r := Run(sent, Failed(FailedToGetResponse));
          FailedRunDescribed(urlFor, script, f, i, FailedToGetResponse);
          DescribedIsDriven(urlFor, script, f, r);
          return;
        case NullResponse =>
          r := Run(sent, Failed(FailedToReceiveResponse));
          FailedRunDescribed(urlFor, script, f, i, FailedToReceiveResponse);
          DescribedIsDriven(urlFor, script, f, r);
          return;
        case Response(p) =>
          ghost var before := result;
          var j := 0;
          while j < |p.results|
            invariant 0 <= j <= |p.results|
            invariant result == before + MapEach(p.results[..j], f)
          {
            MapEachSnoc(p.results, j, f);
            result := result + [f(p.results[j])];
            j := j + 1;
          }
          assert p.results[..j] == p.results;
          assert result == Collected(script, i + 1, f);
          if IsDone(p) {
            r := Run(sent, Done(result));
            DoneRunDescribed(urlFor, script, f, i);
            DescribedIsDriven(urlFor, script, f, r);
            return;
          }
      }
      i := i + 1;
    }
    r := Run(sent, Unfinished);
    UnfinishedRunDescribed(urlFor, script, f);
    DescribedIsDriven(urlFor, script, f, r);
  }

  /** A run that ended before the script did also describes any longer
      script. */
  lemma DescribesExtends<W, M>(urlFor: Int64 -> string, script: seq<Exchange<W>>, more: seq<Exchange<W>>, f: W -> M, r: Run<seq<M>>)
    requires Describes(urlFor, script, f, r) && !r.status.Unfinished?
    ensures Describes(urlFor, script + more, f, r)
  {
    var longer := script + more;
    var n := |r.sent|;
    forall k | 0 <= k < n ensures longer[k] == script[k] {}
    assert Urls(urlFor, longer, n) == Urls(urlFor, script, n);
    if r.status.Done? {
      CollectedPrefix(script, more, n, f);
    }
  }

  /** Exchanges after the one that ended the run are never consulted. */
  lemma ScriptBeyondEndUnread<W, M>(urlFor: Int64 -> string, script: seq<Exchange<W>>, more: seq<Exchange<W>>, f: W -> M)
    requires !Drive(urlFor, script, f).status.Unfinished?
    ensures Drive(urlFor, script + more, f) == Drive(urlFor, script, f)
  {
    DescribesExtends(urlFor, script, more, f, Drive(urlFor, script, f));
    DescribedIsDriven(urlFor, script + more, f, Drive(urlFor, script, f));
  }

  lemma {:induction false} CollectedPrefix<W, M>(script: seq<Exchange<W>>, more: seq<Exchange<W>>, n: nat, f: W -> M)
    requires n <= |script|
    requires forall k :: 0 <= k < n ==> script[k].reply.Response?
    ensures Collected(script + more, n, f) == Collected(script, n, f)
  {
    if n > 0 {
      assert (script + more)[n - 1] == script[n - 1];
      CollectedPrefix(script, more, n - 1, f);
    }
  }

  /** A server that keeps answering with a page that is not the last one
      keeps the loop going for as long as it answers: the loop makes no
      progress of its own. */
  lemma RepeatedPageNeverFinishes<W, M>(urlFor: Int64 -> string, clocks: seq<Int64>, p: Page<W>, f: W -> M)
    requires !IsDone(p)
    ensures var script := seq(|clocks|, i requires 0 <= i < |clocks| => Exchange(clocks[i], Response(p)));
      var r := Drive(urlFor, script, f);
      r.status.Unfinished? && |r.sent| == |clocks|
  {
  }

  /** A non-final page followed by a final one: two requests, and the
      results of both pages in order. */
  lemma TwoPageRun<W, M>(urlFor: Int64 -> string, e1: Exchange<W>, e2: Exchange<W>, f: W -> M)
    requires Continues(e1.reply) && Finishes(e2.reply)
    ensures Drive(urlFor, [e1, e2], f)
      == Run([urlFor(e1.clock), urlFor(e2.clock)],
             Done(MapEach(e1.reply.page.results, f) + MapEach(e2.reply.page.results, f)))
  {
    var script := [e1, e2];
    var r := Run([urlFor(e1.clock), urlFor(e2.clock)],
                 Done(MapEach(e1.reply.page.results, f) + MapEach(e2.reply.page.results, f)));
    assert r.sent == Urls(urlFor, script, 2);
    assert Collected(script, 1, f) == MapEach(e1.reply.page.results, f);
    DescribedIsDriven(urlFor, script, f, r);
  }

  /** A run whose first page is already the last sends one request and
      yields exactly that page's records. */
  lemma FirstPageRun<W, M>(urlFor: Int64 -> string, script: seq<Exchange<W>>, f: W -> M)
    requires |script| >= 1 && Finishes(script[0].reply)
    ensures Drive(urlFor, script, f)
      == Run([urlFor(script[0].clock)], Done(MapEach(script[0].reply.page.results, f)))
  {
    var r := Run(Urls(urlFor, script, 1), Done(Collected(script, 1, f)));
    DoneRunDescribed(urlFor, script, f, 0);
    DescribedIsDriven(urlFor, script, f, r);
    assert Collected(script, 1, f) == MapEach(script[0].reply.page.results, f);
  }

  /** Every request of a run asks the server for the same thing: the URLs
      share everything up to the timestamp, so no offset or other progress
      marker is ever sent. */
  lemma EveryRequestAlike<W, M>(md5: Authorization.Md5, s: Settings, path: string, parameters: string,
                                script: seq<Exchange<W>>, f: W -> M, r: Run<seq<M>>)
    requires Describes(Requester(md5, s, path, parameters), script, f, r)
    ensures forall i :: 0 <= i < |r.sent| ==> StartsWith(r.sent[i], RequestPrefix(s, path, parameters))
  {
    forall i | 0 <= i < |r.sent| ensures StartsWith(r.sent[i], RequestPrefix(s, path, parameters)) {
      assert r.sent[i] == CreateUrl(md5, s, path, parameters, script[i].clock);
      UrlLayout(md5, s, path, parameters, script[i].clock);
    }
  }
}
