/** Many calls of the real parser, one buffer after another, and its header size limit. */
module HttpSession {
  import opened HttpTypes
  import opened HttpMachine
  import opened HttpRun
  import opened HttpInvariant
  import opened HttpBlocks
  import opened HttpSplit
  import opened HttpExecute

  /** How far the counter is ahead of the true count after the buffers, exactly. */
  function AheadAll(p: Parser, count: nat, bufs: seq<string>, ahead: nat): nat {
    if bufs == [] then ahead
    else
      var n := |bufs| - 1;
      var f, a := Feed(p, count, bufs[..n]), AheadAll(p, count, bufs[..n], ahead);
      if f.parser.errno.Ok? then AheadAfter(f.parser, f.count, bufs[n], a) else a
  }

  /** The calls since the one in which the counter was last set to zero, that one included;
      `calls` of them came before the first buffer. */
  function CallsSince(p: Parser, count: nat, bufs: seq<string>, calls: nat): nat {
    if bufs == [] then calls
    else
      var n := |bufs| - 1;
      var f, k := Feed(p, count, bufs[..n]), CallsSince(p, count, bufs[..n], calls);
      if f.parser.errno.Ok? then Lag(RunBytes(Begin(f.parser, f.count), bufs[n]), k) + 1 else k
  }

  /** Each call leaves the counter ahead by one byte more at most. */
  lemma {:induction false} AheadBound(p: Parser, count: nat, bufs: seq<string>, ahead: nat)
    ensures AheadAll(p, count, bufs, ahead) <= CallsSince(p, count, bufs, ahead)
  {
    hide RunBytes, Feed, Overcounts;
    if bufs != [] {
      AheadBound(p, count, bufs[..|bufs| - 1], ahead);
    }
  }

  /** The counter passes the limit inside buffer `k`. */
  ghost predicate ExceedsIn(p: Parser, count: nat, bufs: seq<string>, k: nat, ahead: nat)
    requires k < |bufs|
  {
    var f := Feed(p, count, bufs[..k]);
    f.parser.errno.Ok? && Exceeds(Begin(f.parser, f.count), bufs[k], AheadAll(p, count, bufs[..k], ahead))
  }

  ghost predicate ExceedsSomewhere(p: Parser, count: nat, bufs: seq<string>, ahead: nat) {
    exists k: nat :: k < |bufs| && ExceedsIn(p, count, bufs, k, ahead)
  }

  /** At byte `i` of buffer `k` the true count, and the calls since it was last reset, make more
      than the limit together. */
  predicate TooLong(p: Parser, count: nat, bufs: seq<string>, calls: nat, k: nat, i: nat)
    requires k < |bufs| && i <= |bufs[k]|
  {
    var f := Feed(p, count, bufs[..k]);
    var r := RunBytes(Begin(f.parser, f.count), bufs[k][..i]);
    r.headerBytes + Lag(r, CallsSince(p, count, bufs[..k], calls)) + 1 > MAX_HEADER_SIZE
  }

  /** Headers that are not too long are never refused for their size. */
  lemma OverflowMeansTooLong(p: Parser, count: nat, bufs: seq<string>, ahead: nat)
    requires ExceedsSomewhere(p, count, bufs, ahead)
    ensures exists k: nat, i: nat :: k < |bufs| && i <= |bufs[k]| && TooLong(p, count, bufs, ahead, k, i)
  {
    hide RunBytes, Feed, AheadAll, CallsSince, Extra;
    var k: nat :| k < |bufs| && ExceedsIn(p, count, bufs, k, ahead);
    var f := Feed(p, count, bufs[..k]);
    var i: nat :| i <= |bufs[k]| && ExceedsAt(Begin(f.parser, f.count), bufs[k], AheadAll(p, count, bufs[..k], ahead), i);
    AheadBound(p, count, bufs[..k], ahead);
    assert TooLong(p, count, bufs, ahead, k, i);
  }

  /** Feeds the buffers in turn until the parser reports an error.  Unless that is the header
      limit, the result is that of the byte machine on the same buffers.  `count` header bytes
      have been seen before; the counter may be ahead of that already, by `nread - count`. */
  method ExecuteAll(parser: PushParser, bufs: seq<string>, ghost count: nat) returns (consumed: nat, events: seq<Event>)
    requires parser.Valid() && parser.errno.Ok? && count <= parser.nread
    requires forall i | 0 <= i < |bufs| :: 0 < |bufs[i]| < TWO32 - MAX_HEADER_SIZE
    modifies parser
    ensures parser.Valid()
    ensures !parser.errno.HeaderOverflow? ==>
      var f := Feed(old(parser.View()), count, bufs);
      && parser.errno == f.parser.errno && consumed == f.consumed && events == f.events
      && (parser.errno.Ok? ==> parser.View() == f.parser)
    ensures parser.errno.Ok? ==>
      var p, ahead := old(parser.View()), old(parser.nread) - count;
      var f := Feed(p, count, bufs);
      && parser.nread == f.count + AheadAll(p, count, bufs, ahead)
      && f.count <= parser.nread <= f.count + CallsSince(p, count, bufs, ahead)
      && parser.nread <= MAX_HEADER_SIZE && !ExceedsSomewhere(p, count, bufs, ahead)
    ensures parser.errno.HeaderOverflow? ==>
      ExceedsSomewhere(old(parser.View()), count, bufs, old(parser.nread) - count)
  {
    hide Call, Exceeds, AheadAfter, CallsSince, Inv, StateOk, CountOk;
    consumed, events := 0, [];
    ghost var p0, ahead := parser.View(), parser.nread - count;
    assert bufs[..|bufs|] == bufs;
    var i := 0;
    while i < |bufs|
      invariant 0 <= i <= |bufs| && parser.Valid() && parser.errno.Ok?
      invariant var f := Feed(p0, count, bufs[..i]);
        && f == Fed(parser.View(), f.count, events, consumed)
        && parser.nread == f.count + AheadAll(p0, count, bufs[..i], ahead)
      invariant forall k: nat | k < i :: !ExceedsIn(p0, count, bufs, k, ahead)
    {
      ghost var f := Feed(p0, count, bufs[..i]);
      assert bufs[..i + 1][..i] == bufs[..i];
      var n, es := parser.Execute(bufs[i], f.count);
      consumed, events := consumed + n, events + es;
      if !parser.errno.Ok? {
        if parser.errno.HeaderOverflow? {
          assert ExceedsIn(p0, count, bufs, i, ahead);
        } else {
          FeedStopped(p0, count, bufs, i + 1);
        }
        return;
      }
      i := i + 1;
    }
    AheadBound(p0, count, bufs, ahead);
  }

  lemma {:induction false} FeedStopped(p: Parser, count: nat, bufs: seq<string>, i: nat)
    requires i <= |bufs| && !Feed(p, count, bufs[..i]).parser.errno.Ok?
    ensures Feed(p, count, bufs) == Feed(p, count, bufs[..i])
    decreases |bufs|
  {
    hide Call;
    if i < |bufs| {
      var n := |bufs| - 1;
      assert bufs[..n][..i] == bufs[..i];
      FeedStopped(p, count, bufs[..n], i);
    } else {
      assert bufs[..i] == bufs;
    }
  }

  /** Two ways of cutting a quiet stream, read by two parsers in the same state, end alike:
      unless one runs into the header limit, with the same error at the same byte, or else with
      equal parsers and the same callbacks up to concatenation. */
  method CompareCuts(a: PushParser, b: PushParser, cut1: seq<string>, cut2: seq<string>, ghost count: nat, ghost data: string)
    returns (n1: nat, events1: seq<Event>, n2: nat, events2: seq<Event>)
    requires a != b && a.Valid() && b.Valid() && a.errno.Ok? && a.View() == b.View()
    requires count <= a.nread && count <= b.nread && CountOk(a.View(), count)
    requires data != "" && Quiet(a.View(), count, data) && IsCut(cut1, data) && IsCut(cut2, data)
    requires forall i | 0 <= i < |cut1| :: |cut1[i]| < TWO32 - MAX_HEADER_SIZE
    requires forall i | 0 <= i < |cut2| :: |cut2[i]| < TWO32 - MAX_HEADER_SIZE
    modifies a, b
    ensures !a.errno.HeaderOverflow? && !b.errno.HeaderOverflow? ==>
      && a.errno == b.errno && n1 == n2
      && (a.errno.Ok? ==> a.View() == b.View() && Coalesce(events1) == Coalesce(events2))
  {
    hide Feed, Quiet, Flatten, Coalesce, RunBytes, AheadAll, CallsSince, ExceedsSomewhere;
    ghost var p := a.View();
    SplitInvariance(p, count, data, cut1);
    SplitInvariance(p, count, data, cut2);
    n1, events1 := ExecuteAll(a, cut1, count);
    n2, events2 := ExecuteAll(b, cut2, count);
  }
}
