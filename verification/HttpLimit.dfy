/** Which streams are refused for the size of their headers, however they are cut. */
module HttpLimits {
  import opened Options
  import opened HttpTypes
  import opened HttpMachine
  import opened HttpRun
  import opened HttpInvariant
  import opened HttpBlocks
  import opened HttpSplit
  import opened HttpCuts
  import opened HttpExecute
  import opened HttpSession

  // ---- A byte of a buffer and the byte of the stream ---------------------------------------------

  /** The whole run where byte `i` of buffer `k` is to come. */
  function Whole(p: Parser, count: nat, bufs: seq<string>, x: nat): Run
    requires x <= |Flatten(bufs)|
  {
    RunBytes(Begin(p, count), Flatten(bufs)[..x])
  }

  function At(bufs: seq<string>, k: nat, i: nat): nat
    requires k < |bufs|
  {
    |Flatten(bufs[..k])| + i
  }

  lemma {:induction false} FlattenUpTo(bufs: seq<string>, k: nat)
    requires k <= |bufs|
    ensures |Flatten(bufs[..k])| <= |Flatten(bufs)| && Flatten(bufs)[..|Flatten(bufs[..k])|] == Flatten(bufs[..k])
  {
    var n := |bufs| - 1;
    if k == |bufs| {
      assert bufs[..k] == bufs;
    } else {
      FlattenUpTo(bufs[..n], k);
      assert bufs[..n][..k] == bufs[..k];
      var m := |Flatten(bufs[..k])|;
      assert (Flatten(bufs[..n]) + bufs[n])[..m] == Flatten(bufs[..n])[..m];
    }
  }

  lemma FlattenAt(bufs: seq<string>, k: nat, i: nat)
    requires k < |bufs| && i <= |bufs[k]|
    ensures At(bufs, k, i) <= |Flatten(bufs)|
    ensures Flatten(bufs)[..At(bufs, k, i)] == Flatten(bufs[..k] + [bufs[k][..i]]) == Flatten(bufs[..k]) + bufs[k][..i]
    ensures At(bufs, k, |bufs[k]|) == |Flatten(bufs[..k + 1])|
  {
    FlattenUpTo(bufs, k + 1);
    assert bufs[..k + 1][..k] == bufs[..k];
    var a, b := Flatten(bufs[..k]), bufs[k];
    assert Flatten(bufs[..k + 1]) == a + b;
    assert (a + b)[..|a| + i] == a + b[..i];
    var x := At(bufs, k, i);
    assert Flatten(bufs)[..|a + b|][..x] == Flatten(bufs)[..x];
    assert (bufs[..k] + [b[..i]])[..k] == bufs[..k];
  }

  /** The lengths of buffers that are modelled. */
  predicate Sizes(bufs: seq<string>) { forall i | 0 <= i < |bufs| :: |bufs[i]| < TWO32 - MAX_HEADER_SIZE }

  predicate NonEmpty(bufs: seq<string>) { forall i | 0 <= i < |bufs| :: bufs[i] != "" }

  /** A buffer's run stands where the whole one does. */
  lemma AtByte(p: Parser, count: nat, bufs: seq<string>, k: nat, i: nat)
    requires Inv(p) && CountOk(p, count) && NonEmpty(bufs) && Quiet(p, count, Flatten(bufs))
    requires k < |bufs| && i <= |bufs[k]| && Feed(p, count, bufs[..k]).parser.errno.Ok?
    ensures At(bufs, k, i) <= |Flatten(bufs)|
    ensures var f := Feed(p, count, bufs[..k]);
      var r, s := Whole(p, count, bufs, At(bufs, k, i)), RunBytes(Begin(f.parser, f.count), bufs[k][..i]);
      s.parser == r.parser && s.headerBytes == r.headerBytes && s.control == r.control
  {
    hide RunBytes, Inv, CountOk, Quiet, Equiv, Feed;
    FlattenAt(bufs, k, i);
    var x := At(bufs, k, i);
    var text := Flatten(bufs);
    assert text == text[..x] + text[x..];
    QuietPrefix(p, count, text[..x], text[x..]);
    if i > 0 {
      var cut := bufs[..k] + [bufs[k][..i]];
      assert cut[..k] == bufs[..k];
      FeedEquiv(p, count, cut);
      EquivSame(RunBytes(Begin(p, count), text[..x]), Feed(p, count, bufs[..k]), RunBytes(Begin(Feed(p, count, bufs[..k]).parser, Feed(p, count, bufs[..k]).count), bufs[k][..i]));
    } else {
      assert bufs[k][..0] == "";
      RunBytesNone(Begin(Feed(p, count, bufs[..k]).parser, Feed(p, count, bufs[..k]).count));
      AtBoundary(p, count, bufs, k);
    }
  }

  lemma EquivSame(r: Run, f: Fed, s: Run)
    requires Equiv(r, f.events, f.consumed, s)
    ensures s.parser == r.parser && s.headerBytes == r.headerBytes && s.control == r.control
  {
  }

  /** Between two buffers. */
  lemma AtBoundary(p: Parser, count: nat, bufs: seq<string>, k: nat)
    requires Inv(p) && CountOk(p, count) && NonEmpty(bufs) && Quiet(p, count, Flatten(bufs))
    requires k < |bufs| && Feed(p, count, bufs[..k]).parser.errno.Ok?
    ensures |Flatten(bufs[..k])| <= |Flatten(bufs)|
    ensures var f, r := Feed(p, count, bufs[..k]), Whole(p, count, bufs, |Flatten(bufs[..k])|);
      f.parser == r.parser && f.count == r.headerBytes && r.control.Advance?
  {
    hide RunBytes, Inv, CountOk, Feed;
    var before, text := bufs[..k], Flatten(bufs);
    FlattenAt(bufs, k, 0);
    FlattenUpTo(bufs, k);
    if k == 0 {
      assert text[..0] == "";
      RunBytesNone(Begin(p, count));
      FeedNothing(p, count, bufs);
    } else {
      var data := Flatten(before);
      assert text == data + text[|data|..];
      QuietPrefix(p, count, data, text[|data|..]);
      QuietSuffix(p, count, data, text[|data|..]);
      SomeLeft(bufs, k);
      FlattenSome(before);
      SplitInvariance(p, count, data, before);
      InvOk(p);
      FeedOneBuffer(p, count, data);
      BeginOk(p, count);
      RunBytesKeeps(Begin(p, count), data);
    }
  }

  lemma FeedNothing(p: Parser, count: nat, bufs: seq<string>)
    ensures Feed(p, count, bufs[..0]) == Fed(p, count, [], 0)
  {
  }

  lemma SomeLeft(bufs: seq<string>, k: nat)
    requires NonEmpty(bufs) && k < |bufs|
    ensures |Flatten(bufs[..k])| < |Flatten(bufs)|
  {
    FlattenAt(bufs, k, |bufs[k]|);
    FlattenUpTo(bufs, k + 1);
  }

  // ---- The counter where it has not been reset ------------------------------------------------------

  lemma {:induction false} SettleReset(r: Run, ch: char)
    requires r.control.Advance? && !r.reset
    ensures Settle(r, ch).reset ==> Settle(r, ch).headerBytes == 0
    decreases Rank(r.parser.state)
  {
    hide Transition;
    var o := Transition(r.parser, r.skipping, ch);
    if o.control.Reexecute? {
      SettleHeaderBytes(Settled(r, ch), ch);
      if !Settled(r, ch).reset {
        SettleReset(Settled(r, ch), ch);
      }
    }
  }

  /** After a reset the count is smaller than the bytes that were read. */
  lemma {:induction false} ResetSmall(r: Run, data: string)
    requires !r.reset
    ensures RunBytes(r, data).reset ==> RunBytes(r, data).headerBytes < |data|
  {
    hide Settle;
    if data != "" {
      var n := |data| - 1;
      ResetSmall(r, data[..n]);
      var s := RunBytes(r, data[..n]);
      StepHeaderBytes(s, data[n]);
      if s.control.Advance? && !s.reset {
        SettleReset(Count(s), data[n]);
      }
    }
  }

  /** All bytes up to `n` are header bytes that count. */
  predicate AllCount(p: Parser, bufs: seq<string>, n: nat)
    requires n <= |Flatten(bufs)|
  {
    Whole(p, 0, bufs, n).headerBytes == n
  }

  lemma CountsBefore(p: Parser, bufs: seq<string>, n: nat, x: nat)
    requires x <= n <= |Flatten(bufs)| && AllCount(p, bufs, n)
    ensures AllCount(p, bufs, x)
  {
    hide RunBytes;
    var text, start := Flatten(bufs), Begin(p, 0);
    assert text[..n] == text[..x] + text[x..n];
    RunBytesAppend(start, text[..x], text[x..n]);
    HeaderBytesBound(start, text[..x]);
    HeaderBytesBound(RunBytes(start, text[..x]), text[x..n]);
  }

  /** The index of the buffer that holds byte `n - 1`. */
  function Holder(bufs: seq<string>, n: nat): (h: nat)
    requires 0 < n <= |Flatten(bufs)|
    ensures h < |bufs| && |Flatten(bufs[..h])| < n <= |Flatten(bufs[..h + 1])|
  {
    var last := |bufs| - 1;
    assert bufs[..last + 1] == bufs;
    if |Flatten(bufs[..last])| < n then last
    else
      var h := Holder(bufs[..last], n);
      assert bufs[..last][..h] == bufs[..h] && bufs[..last][..h + 1] == bufs[..h + 1];
      h
  }

  lemma {:induction false} HolderOf(bufs: seq<string>, n: nat, k: nat)
    requires 0 < n <= |Flatten(bufs)| && k < |bufs| && |Flatten(bufs[..k])| < n
    ensures k <= Holder(bufs, n)
  {
    var h := Holder(bufs, n);
    if h < k {
      assert bufs[..k][..h + 1] == bufs[..h + 1];
      FlattenUpTo(bufs[..k], h + 1);
    }
  }

  /** What one buffer that is all header bytes adds to the over-count. */
  lemma AheadStep(p: Parser, bufs: seq<string>, n: nat, k: nat)
    requires Inv(p) && CountOk(p, 0) && NonEmpty(bufs) && Quiet(p, 0, Flatten(bufs))
    requires k < |bufs| && |Flatten(bufs[..k + 1])| <= n <= |Flatten(bufs)| && AllCount(p, bufs, n)
    requires Feed(p, 0, bufs[..k]).parser.errno.Ok?
    ensures var f := Feed(p, 0, bufs[..k]);
      AheadAll(p, 0, bufs[..k + 1], 0) == AheadAll(p, 0, bufs[..k], 0) + Extra(Begin(f.parser, f.count), bufs[k], |bufs[k]|)
  {
    hide RunBytes, Inv, CountOk, Quiet, Feed, Extra, Begin;
    FlattenAt(bufs, k, |bufs[k]|);
    NoReset(p, bufs, n, k, |bufs[k]|);
    assert bufs[k][..|bufs[k]|] == bufs[k];
    assert bufs[..k + 1][..k] == bufs[..k];
  }

  lemma NoReset(p: Parser, bufs: seq<string>, n: nat, k: nat, i: nat)
    requires Inv(p) && CountOk(p, 0) && NonEmpty(bufs) && Quiet(p, 0, Flatten(bufs))
    requires k < |bufs| && i <= |bufs[k]| && At(bufs, k, i) <= n <= |Flatten(bufs)| && AllCount(p, bufs, n)
    requires Feed(p, 0, bufs[..k]).parser.errno.Ok?
    ensures var f := Feed(p, 0, bufs[..k]);
      var s := RunBytes(Begin(f.parser, f.count), bufs[k][..i]);
      !s.reset && s.headerBytes == At(bufs, k, i)
  {
    hide RunBytes, Inv, CountOk, Quiet, Feed;
    AtByte(p, 0, bufs, k, i);
    CountsBefore(p, bufs, n, At(bufs, k, i));
    var f := Feed(p, 0, bufs[..k]);
    ResetSmall(Begin(f.parser, f.count), bufs[k][..i]);
  }

  lemma {:induction false} AheadGrows(p: Parser, bufs: seq<string>, n: nat, k: nat, h: nat)
    requires Inv(p) && CountOk(p, 0) && NonEmpty(bufs) && Quiet(p, 0, Flatten(bufs))
    requires k <= h <= |bufs| && |Flatten(bufs[..h])| <= n <= |Flatten(bufs)| && AllCount(p, bufs, n)
    requires forall j | k <= j < h :: Feed(p, 0, bufs[..j]).parser.errno.Ok?
    ensures AheadAll(p, 0, bufs[..k], 0) <= AheadAll(p, 0, bufs[..h], 0)
    decreases h
  {
    hide RunBytes, Inv, CountOk, Quiet, Feed, AheadAll, Extra, AllCount;
    if k < h {
      FlattenUpTo(bufs[..h], h - 1);
      assert bufs[..h][..h - 1] == bufs[..h - 1];
      AheadStep(p, bufs, n, h - 1);
      AheadGrows(p, bufs, n, k, h - 1);
    }
  }

  // ---- A stream with one header section -------------------------------------------------------------

  /** The first `n` bytes are header bytes, the last of them not yet the end; none of the rest is. */
  ghost predicate OneHead(p: Parser, bufs: seq<string>, n: nat) {
    && 0 < n <= |Flatten(bufs)|
    && (var last := Whole(p, 0, bufs, n - 1); last.control.Advance? && ParsingHeader(last.parser.state))
    && AllCount(p, bufs, n - 1)
    && (forall x: nat | n <= x < |Flatten(bufs)| :: !ParsingHeader(Whole(p, 0, bufs, x).parser.state))
    && (var s := Whole(p, 0, bufs, |Flatten(bufs)|).parser.state; !s.HeaderField? && !s.HeaderValue?)
  }

  lemma {:induction false} AllFine(p: Parser, count: nat, bufs: seq<string>, k: nat)
    requires k <= |bufs| && Feed(p, count, bufs).parser.errno.Ok?
    ensures Feed(p, count, bufs[..k]).parser.errno.Ok?
  {
    hide Call;
    if k < |bufs| {
      var n := |bufs| - 1;
      assert bufs[..n][..k] == bufs[..k];
      AllFine(p, count, bufs[..n], k);
    } else {
      assert bufs[..k] == bufs;
    }
  }

  lemma {:induction false} CallsCount(p: Parser, count: nat, bufs: seq<string>, calls: nat)
    ensures CallsSince(p, count, bufs, calls) <= calls + |bufs|
  {
    hide RunBytes, Feed;
    if bufs != [] {
      CallsCount(p, count, bufs[..|bufs| - 1], calls);
    }
  }

  /** Such a stream is refused for its size exactly when its header section, and what the calls
      before its end have counted too much, exceed the limit.  That is at most one byte for each. */
  lemma FitsExactly(p: Parser, bufs: seq<string>, n: nat)
    requires Inv(p) && CountOk(p, 0) && NonEmpty(bufs) && Quiet(p, 0, Flatten(bufs))
    requires Feed(p, 0, bufs).parser.errno.Ok? && OneHead(p, bufs, n)
    ensures var h := Holder(bufs, n);
      && (ExceedsSomewhere(p, 0, bufs, 0) <==> n + AheadAll(p, 0, bufs[..h], 0) > MAX_HEADER_SIZE)
      && AheadAll(p, 0, bufs[..h], 0) <= h
  {
    hide RunBytes, Inv, CountOk, Quiet, Feed, AheadAll, CallsSince, Whole, ExceedsIn;
    var h := Holder(bufs, n);
    AheadBound(p, 0, bufs[..h], 0);
    CallsCount(p, 0, bufs[..h], 0);
    if n + AheadAll(p, 0, bufs[..h], 0) > MAX_HEADER_SIZE {
      HeadExceeds(p, bufs, n);
      assert ExceedsIn(p, 0, bufs, h, 0);
    } else {
      forall k: nat | k < |bufs|
        ensures !ExceedsIn(p, 0, bufs, k, 0)
      {
        HeadWithin(p, bufs, n, k);
      }
    }
  }

  lemma HeadExceeds(p: Parser, bufs: seq<string>, n: nat)
    requires Inv(p) && CountOk(p, 0) && NonEmpty(bufs) && Quiet(p, 0, Flatten(bufs))
    requires Feed(p, 0, bufs).parser.errno.Ok? && OneHead(p, bufs, n)
    requires n + AheadAll(p, 0, bufs[..Holder(bufs, n)], 0) > MAX_HEADER_SIZE
    ensures ExceedsIn(p, 0, bufs, Holder(bufs, n), 0)
  {
    hide RunBytes, Inv, CountOk, Quiet, Feed, AheadAll, Extra;
    var h := Holder(bufs, n);
    var i := n - 1 - |Flatten(bufs[..h])|;
    FlattenAt(bufs, h, |bufs[h]|);
    AllFine(p, 0, bufs, h);
    AtByte(p, 0, bufs, h, i);
    NoReset(p, bufs, n - 1, h, i);
    var f := Feed(p, 0, bufs[..h]);
    assert ExceedsAt(Begin(f.parser, f.count), bufs[h], AheadAll(p, 0, bufs[..h], 0), i);
  }

  lemma HeadWithin(p: Parser, bufs: seq<string>, n: nat, k: nat)
    requires Inv(p) && CountOk(p, 0) && NonEmpty(bufs) && Quiet(p, 0, Flatten(bufs))
    requires Feed(p, 0, bufs).parser.errno.Ok? && OneHead(p, bufs, n) && k < |bufs|
    requires n + AheadAll(p, 0, bufs[..Holder(bufs, n)], 0) <= MAX_HEADER_SIZE
    ensures !ExceedsIn(p, 0, bufs, k, 0)
  {
    hide RunBytes, Inv, CountOk, Quiet, Feed, AheadAll, Whole, ExceedsAt;
    AllFine(p, 0, bufs, k);
    var f, a := Feed(p, 0, bufs[..k]), AheadAll(p, 0, bufs[..k], 0);
    forall i: nat | i <= |bufs[k]|
      ensures !ExceedsAt(Begin(f.parser, f.count), bufs[k], a, i)
    {
      ByteWithin(p, bufs, n, k, i);
    }
  }

  lemma ByteWithin(p: Parser, bufs: seq<string>, n: nat, k: nat, i: nat)
    requires Inv(p) && CountOk(p, 0) && NonEmpty(bufs) && Quiet(p, 0, Flatten(bufs))
    requires Feed(p, 0, bufs).parser.errno.Ok? && OneHead(p, bufs, n) && k < |bufs| && i <= |bufs[k]|
    requires n + AheadAll(p, 0, bufs[..Holder(bufs, n)], 0) <= MAX_HEADER_SIZE
    ensures var f := Feed(p, 0, bufs[..k]);
      !ExceedsAt(Begin(f.parser, f.count), bufs[k], AheadAll(p, 0, bufs[..k], 0), i)
  {
    hide RunBytes, Inv, CountOk, Quiet, Feed, AheadAll;
    var f := Feed(p, 0, bufs[..k]);
    AllFine(p, 0, bufs, k);
    AtByte(p, 0, bufs, k, i);
    var x, h := At(bufs, k, i), Holder(bufs, n);
    if x < n {
      NoReset(p, bufs, n - 1, k, i);
      HolderOf(bufs, n, k);
      forall j | 0 <= j < h
        ensures Feed(p, 0, bufs[..j]).parser.errno.Ok?
      {
        AllFine(p, 0, bufs, j);
      }
      if i < |bufs[k]| {
        AheadGrows(p, bufs, n - 1, k, h);
      } else {
        LastByte(p, bufs, n, k);
      }
    } else {
      NotCounted(p, bufs, n, k, i);
    }
  }

  /** Behind the header section nothing counts. */
  lemma NotCounted(p: Parser, bufs: seq<string>, n: nat, k: nat, i: nat)
    requires Inv(p) && CountOk(p, 0) && NonEmpty(bufs) && Quiet(p, 0, Flatten(bufs))
    requires OneHead(p, bufs, n) && k < |bufs| && i <= |bufs[k]| && n <= At(bufs, k, i)
    requires Feed(p, 0, bufs[..k]).parser.errno.Ok?
    ensures var f := Feed(p, 0, bufs[..k]);
      !ExceedsAt(Begin(f.parser, f.count), bufs[k], AheadAll(p, 0, bufs[..k], 0), i)
  {
    hide RunBytes, Inv, CountOk, Quiet, Feed, AheadAll, AllCount;
    AtByte(p, 0, bufs, k, i);
    var s := Whole(p, 0, bufs, At(bufs, k, i)).parser.state;
    if i < |bufs[k]| {
      FlattenAt(bufs, k, i + 1);
      assert !ParsingHeader(s);
    } else {
      assert bufs[k][..i] == bufs[k];
      assert At(bufs, k, i) < |Flatten(bufs)| ==> !ParsingHeader(s);
      assert !s.HeaderField? && !s.HeaderValue?;
    }
  }

  lemma MoreBuffers(bufs: seq<string>, k: nat)
    requires k < |bufs| && |Flatten(bufs[..k + 1])| < |Flatten(bufs)|
    ensures k + 1 < |bufs|
  {
    assert bufs[..|bufs|] == bufs;
  }

  /** The byte that is counted too much where a buffer ends. */
  lemma LastByte(p: Parser, bufs: seq<string>, n: nat, k: nat)
    requires Inv(p) && CountOk(p, 0) && NonEmpty(bufs) && Quiet(p, 0, Flatten(bufs))
    requires 0 < n <= |Flatten(bufs)| && AllCount(p, bufs, n - 1) && k < |bufs| && At(bufs, k, |bufs[k]|) < n
    requires forall j | 0 <= j < Holder(bufs, n) :: Feed(p, 0, bufs[..j]).parser.errno.Ok?
    requires k <= Holder(bufs, n)
    ensures var f := Feed(p, 0, bufs[..k]);
      AheadAll(p, 0, bufs[..k], 0) + Extra(Begin(f.parser, f.count), bufs[k], |bufs[k]|) <= AheadAll(p, 0, bufs[..Holder(bufs, n)], 0)
  {
    hide RunBytes, Inv, CountOk, Quiet, Feed, AheadAll, Extra;
    FlattenAt(bufs, k, |bufs[k]|);
    MoreBuffers(bufs, k);
    HolderOf(bufs, n, k + 1);
    AheadStep(p, bufs, n - 1, k);
    AheadGrows(p, bufs, n - 1, k + 1, Holder(bufs, n));
  }

  // ---- A stream whose first byte resets the counter ---------------------------------------------------

  /** From its first byte on the stream counts from zero, and has no header names and values. */
  ghost predicate ResetFirst(p: Parser, count: nat, bufs: seq<string>) {
    forall x: nat | 1 <= x <= |Flatten(bufs)| ::
      var r := Whole(p, count, bufs, x); r.reset && !r.parser.state.HeaderField? && !r.parser.state.HeaderValue?
  }

  /** In the first buffer the run is the whole one. */
  lemma FirstBuffer(p: Parser, count: nat, bufs: seq<string>, i: nat)
    requires bufs != [] && i <= |bufs[0]|
    ensures At(bufs, 0, i) == i <= |Flatten(bufs)| && Whole(p, count, bufs, i) == RunBytes(Begin(p, count), bufs[0][..i])
  {
    hide RunBytes;
    FlattenAt(bufs, 0, i);
    assert bufs[..0] == [];
    assert "" + bufs[0][..i] == bufs[0][..i];
  }

  /** Then no call is ahead of the true count. */
  lemma {:induction false} AheadNone(p: Parser, count: nat, bufs: seq<string>, ahead: nat, k: nat)
    requires Inv(p) && CountOk(p, count) && NonEmpty(bufs) && Quiet(p, count, Flatten(bufs))
    requires Feed(p, count, bufs).parser.errno.Ok? && ResetFirst(p, count, bufs) && 1 <= k <= |bufs|
    ensures AheadAll(p, count, bufs[..k], ahead) == 0
  {
    hide RunBytes, Inv, CountOk, Quiet, Feed;
    assert bufs[..k][..k - 1] == bufs[..k - 1];
    AllFine(p, count, bufs, k - 1);
    AtByte(p, count, bufs, k - 1, |bufs[k - 1]|);
    assert bufs[k - 1][..|bufs[k - 1]|] == bufs[k - 1];
    FlattenAt(bufs, k - 1, |bufs[k - 1]|);
    FlattenAt(bufs, k - 1, 0);
    if k == 1 {
      FeedNothing(p, count, bufs);
      FirstBuffer(p, count, bufs, |bufs[0]|);
    } else {
      AheadNone(p, count, bufs, ahead, k - 1);
    }
  }

  /** A byte of such a stream is too much for the limit. */
  predicate Peak(p: Parser, count: nat, bufs: seq<string>, x: nat)
    requires x <= |Flatten(bufs)|
  {
    var r := Whole(p, count, bufs, x); ParsingHeader(r.parser.state) && r.headerBytes + 1 > MAX_HEADER_SIZE
  }

  lemma WholeAdvances(p: Parser, count: nat, bufs: seq<string>, x: nat)
    requires Quiet(p, count, Flatten(bufs)) && x < |Flatten(bufs)| && !RunBytes(Begin(p, count), Flatten(bufs)).control.Fail?
    requires Inv(p) && CountOk(p, count)
    ensures Whole(p, count, bufs, x).control.Advance?
  {
    hide RunBytes, IsHeaderChar, Inv, CountOk, OpenOk;
    var text := Flatten(bufs);
    assert text == text[..x] + text[x..];
    RunBytesAppend(Begin(p, count), text[..x], text[x..]);
    BeginOk(p, count);
    RunBytesKeeps(Begin(p, count), text[..x]);
    if !Whole(p, count, bufs, x).control.Advance? {
      RunBytesStopped(Whole(p, count, bufs, x), text[x..]);
    }
  }

  lemma PeakExceeds(p: Parser, count: nat, bufs: seq<string>, ahead: nat, x: nat)
    requires Inv(p) && CountOk(p, count) && NonEmpty(bufs) && Quiet(p, count, Flatten(bufs))
    requires !RunBytes(Begin(p, count), Flatten(bufs)).control.Fail?
    requires Feed(p, count, bufs).parser.errno.Ok? && ResetFirst(p, count, bufs)
    requires 1 <= x < |Flatten(bufs)| && Peak(p, count, bufs, x)
    ensures ExceedsSomewhere(p, count, bufs, ahead)
  {
    hide RunBytes, Inv, CountOk, Quiet, Feed, AheadAll, ResetFirst, Extra;
    var k := Holder(bufs, x + 1);
    var i := x - |Flatten(bufs[..k])|;
    FlattenAt(bufs, k, |bufs[k]|);
    AllFine(p, count, bufs, k);
    AtByte(p, count, bufs, k, i);
    WholeAdvances(p, count, bufs, x);
    var f := Feed(p, count, bufs[..k]);
    assert ExceedsAt(Begin(f.parser, f.count), bufs[k], AheadAll(p, count, bufs[..k], ahead), i);
    assert ExceedsIn(p, count, bufs, k, ahead);
  }

  lemma NoPeakWithin(p: Parser, count: nat, bufs: seq<string>, ahead: nat, k: nat, i: nat)
    requires Inv(p) && CountOk(p, count) && NonEmpty(bufs) && Quiet(p, count, Flatten(bufs))
    requires Feed(p, count, bufs).parser.errno.Ok? && ResetFirst(p, count, bufs)
    requires ParsingHeader(p.state) ==> count + ahead + 1 <= MAX_HEADER_SIZE
    requires forall x: nat | 1 <= x < |Flatten(bufs)| :: !Peak(p, count, bufs, x)
    requires k < |bufs| && i <= |bufs[k]|
    ensures var f := Feed(p, count, bufs[..k]); !ExceedsAt(Begin(f.parser, f.count), bufs[k], AheadAll(p, count, bufs[..k], ahead), i)
  {
    hide RunBytes, Inv, CountOk, Quiet, Feed;
    AllFine(p, count, bufs, k);
    AtByte(p, count, bufs, k, i);
    var x := At(bufs, k, i);
    if k == 0 {
      FeedNothing(p, count, bufs);
      FirstBuffer(p, count, bufs, i);
      assert bufs[..0] == [];
      RunBytesNone(Begin(p, count));
      assert i == 0 ==> bufs[0][..i] == "";
    } else {
      AheadNone(p, count, bufs, ahead, k);
      SomeBefore(bufs, k);
    }
    if i < |bufs[k]| {
      FlattenAt(bufs, k, i + 1);
      assert x > 0 ==> !Peak(p, count, bufs, x);
    } else {
      assert bufs[k][..i] == bufs[k];
      assert !Whole(p, count, bufs, x).parser.state.HeaderField? && !Whole(p, count, bufs, x).parser.state.HeaderValue?;
    }
  }

  lemma SomeBefore(bufs: seq<string>, k: nat)
    requires NonEmpty(bufs) && 0 < k <= |bufs|
    ensures |Flatten(bufs[..k])| > 0
  {
    FlattenSome(bufs[..k]);
  }

  /** Such a stream is refused for its size exactly when the counter is at the limit before it, or
      when some byte of it, counted from the last reset, is beyond the limit.  How it is cut does not
      matter. */
  lemma LateExactly(p: Parser, count: nat, bufs: seq<string>, ahead: nat)
    requires Inv(p) && CountOk(p, count) && NonEmpty(bufs) && Quiet(p, count, Flatten(bufs)) && bufs != []
    requires !RunBytes(Begin(p, count), Flatten(bufs)).control.Fail?
    requires Feed(p, count, bufs).parser.errno.Ok? && ResetFirst(p, count, bufs)
    ensures ExceedsSomewhere(p, count, bufs, ahead) <==>
      || (ParsingHeader(p.state) && count + ahead + 1 > MAX_HEADER_SIZE)
      || exists x: nat :: 1 <= x < |Flatten(bufs)| && Peak(p, count, bufs, x)
  {
    hide RunBytes, Inv, CountOk, Quiet, Feed, AheadAll, ResetFirst, ExceedsAt, Peak;
    InvOk(p);
    if ParsingHeader(p.state) && count + ahead + 1 > MAX_HEADER_SIZE {
      FirstExceeds(p, count, bufs, ahead);
    } else if x: nat :| 1 <= x < |Flatten(bufs)| && Peak(p, count, bufs, x) {
      PeakExceeds(p, count, bufs, ahead, x);
    } else {
      forall k: nat | k < |bufs|
        ensures !ExceedsIn(p, count, bufs, k, ahead)
      {
        forall i: nat | i <= |bufs[k]|
          ensures var f := Feed(p, count, bufs[..k]);
            !ExceedsAt(Begin(f.parser, f.count), bufs[k], AheadAll(p, count, bufs[..k], ahead), i)
        {
          NoPeakWithin(p, count, bufs, ahead, k, i);
        }
      }
    }
  }

  lemma FirstExceeds(p: Parser, count: nat, bufs: seq<string>, ahead: nat)
    requires NonEmpty(bufs) && bufs != [] && p.errno.Ok? && ParsingHeader(p.state) && count + ahead + 1 > MAX_HEADER_SIZE
    ensures ExceedsSomewhere(p, count, bufs, ahead)
  {
    hide RunBytes, Extra;
    FeedNothing(p, count, bufs);
    assert bufs[..0] == [] && bufs[0][..0] == "";
    RunBytesNone(Begin(p, count));
    assert ExceedsAt(Begin(p, count), bufs[0], ahead, 0);
    assert ExceedsIn(p, count, bufs, 0, ahead);
  }
}
