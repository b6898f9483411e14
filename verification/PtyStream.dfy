/**
 Forwarding terminal output to the browser: bytes read from the PTY are regrouped into
 text frames that never cut a UTF-8 character.
 */
module PtyStream {
  import opened Utf8

  const READ_SIZE := 32768

  /** The cut the splitter makes: the longest valid prefix if it ends within the last three bytes, else nothing. */
  function Cut(s: seq<byte>): nat {
    if |s| - Longest(s) <= 3 then Longest(s) else 0
  }

  /** The index loop that finds the cut by trying the whole buffer and then one byte less at a time. */
  method ValidUtf8Prefix(b: seq<byte>) returns (n: nat)
    ensures n == Cut(b) && n <= |b|
  {
    LongestValid(b);
    forall k | 0 <= k <= |b| && Valid(b[..k]) ensures k <= Longest(b) {
      LongestMaximal(b, k);
    }
    assert b[..|b|] == b;
    if Valid(b) {
      return |b|;
    }
    var i := |b| - 1;
    while i >= 0 && i >= |b| - 3
      invariant -1 <= i < |b| && i >= |b| - 4
      invariant forall k :: i < k <= |b| ==> !Valid(b[..k])
    {
      if Valid(b[..i]) {
        return i;
      }
      i := i - 1;
    }
    assert Longest(b) <= i || i < 0;
    return 0;
  }

  /** The cut is valid, and a positive cut is the longest valid prefix of all. */
  lemma {:induction false} CutIsLongest(s: seq<byte>, i: nat)
    ensures Cut(s) <= |s| && Valid(s[..Cut(s)])
    ensures Cut(s) > 0 && Cut(s) < i <= |s| ==> !Valid(s[..i])
    ensures Cut(s) == 0 && i <= |s| && Valid(s[..i]) ==> i == 0 || Longest(s) < |s| - 3
  {
    LongestValid(s);
    if i <= |s| && Valid(s[..i]) {
      LongestMaximal(s, i);
    }
  }

  /** The frames sent, the bytes held back, and how many bytes were thrown away. */
  datatype Pipe = Pipe(frames: seq<seq<byte>>, pending: seq<byte>, dropped: nat)

  /** What the buffer keeps when it overflows: its last three bytes. */
  function Kept(all: seq<byte>): (k: seq<byte>)
    ensures |k| <= |all|
  {
    if |all| > 2 * READ_SIZE then all[|all| - 3..] else all
  }

  /** One iteration of the read loop. */
  function Feed(p: Pipe, data: seq<byte>): Pipe {
    if |data| == 0 then p else
    var kept := Kept(p.pending + data);
    var n := Cut(kept);
    Pipe(if n > 0 then p.frames + [kept[..n]] else p.frames,
         kept[n..],
         p.dropped + |p.pending| + |data| - |kept|)
  }

  function FeedAll(input: seq<seq<byte>>): Pipe
    decreases |input|
  {
    if |input| == 0 then Pipe([], [], 0)
    else Feed(FeedAll(input[..|input| - 1]), input[|input| - 1])
  }

  function Flat(chunks: seq<seq<byte>>): seq<byte>
    decreases |chunks|
  {
    if |chunks| == 0 then [] else Flat(chunks[..|chunks| - 1]) + chunks[|chunks| - 1]
  }

  /** One call of Read: the bytes it delivered and whether it also reported an error. */
  datatype Read = Read(data: seq<byte>, err: bool)

  /** The pipe after the first `k` reads. */
  function Fed(input: seq<Read>, k: nat): Pipe
    requires k <= |input|
  {
    if k == 0 then Pipe([], [], 0) else Feed(Fed(input, k - 1), input[k - 1].data)
  }

  /** The frame due after read number `done` would be one more than the socket accepts. */
  predicate StoppedByWrite(input: seq<Read>, accepts: nat, done: nat) {
    done < |input| && |Fed(input, done + 1).frames| > accepts
  }

  /**
   The forwarding loop.  `accepts` is the number of frames the socket takes before a write
   fails.  `done` counts the reads handled completely; the loop ends at the first read
   error, at the first frame the socket refuses, or with the input.
   */
  method PipePtyToSocket(input: seq<Read>, accepts: nat)
    returns (frames: seq<seq<byte>>, pending: seq<byte>, done: nat)
    ensures done <= |input|
    ensures frames == Fed(input, done).frames && |frames| <= accepts
    ensures forall k :: 0 <= k < done - 1 ==> !input[k].err
    ensures || StoppedByWrite(input, accepts, done)
            || ((done == |input| || (done > 0 && input[done - 1].err)) && pending == Fed(input, done).pending)
  {
    hide Longest;
    frames, pending, done := [], [], 0;
    while done < |input|
      invariant done <= |input|
      invariant frames == Fed(input, done).frames && |frames| <= accepts
      invariant pending == Fed(input, done).pending
      invariant forall k :: 0 <= k < done ==> !input[k].err
    {
      var data := input[done].data;
      if |data| > 0 {
        pending := pending + data;
        if |pending| > 2 * READ_SIZE {
          pending := pending[|pending| - 3..];  // keep at most 3 trailing bytes
        }
        var valid := ValidUtf8Prefix(pending);
        if valid > 0 {
          if |frames| == accepts {
            return;
          }
          frames := frames + [pending[..valid]];
          pending := pending[valid..];
        }
      }
      done := done + 1;
      if input[done - 1].err {
        return;
      }
    }
  }

  /** The loop and the fold over the chunks it has read agree. */
  lemma {:induction false} FedIsFeedAll(input: seq<Read>, k: nat)
    requires k <= |input|
    ensures Fed(input, k) == FeedAll(seq(k, i requires 0 <= i < k => input[i].data))
    decreases k
  {
    var chunks := seq(k, i requires 0 <= i < k => input[i].data);
    if k == 0 {
    } else {
      FedIsFeedAll(input, k - 1);
      assert chunks[..k - 1] == seq(k - 1, i requires 0 <= i < k - 1 => input[i].data);
    }
  }

  // ---------- Streams that are valid so far ----------

  lemma {:induction false} FlatAppend(chunks: seq<seq<byte>>, c: seq<byte>)
    ensures Flat(chunks + [c]) == Flat(chunks) + c
  {
    assert (chunks + [c])[..|chunks|] == chunks;
  }

  /**
   However a stream that can still become valid is cut into reads, after every read the
   frames are exactly its complete characters, the bytes held back are exactly the rest,
   at most three, and nothing is ever dropped.
   */
  lemma {:induction false} Lossless(input: seq<seq<byte>>)
    requires forall k :: 0 <= k < |input| ==> |input[k]| <= 32_768
    requires Extensible(Flat(input))
    ensures var s, p := Flat(input), FeedAll(input);
            && Flat(p.frames) == s[..Longest(s)] && p.pending == s[Longest(s)..]
            && |p.pending| <= 3 && p.dropped == 0
    decreases |input|
  {
    if |input| == 0 {
    } else {
      var before, data := input[..|input| - 1], input[|input| - 1];
      var s, s' := Flat(before), Flat(input);
      ExtensiblePrefix(s, data);
      Lossless(before);
      if |data| == 0 {
        assert s' == s;
      } else {
        ExtensibleTail(s');
        LosslessStep(FeedAll(before), s, data);
      }
    }
  }

  lemma {:induction false} LosslessStep(p: Pipe, s: seq<byte>, data: seq<byte>)
    requires Flat(p.frames) == s[..Longest(s)] && p.pending == s[Longest(s)..]
    requires |p.pending| <= 3 && p.dropped == 0
    requires 0 < |data| <= READ_SIZE && |s + data| - Longest(s + data) <= 3
    ensures var s', p' := s + data, Feed(p, data);
            && Flat(p'.frames) == s'[..Longest(s')] && p'.pending == s'[Longest(s')..]
            && |p'.pending| <= 3 && p'.dropped == 0
  {
    var n, m := Longest(s), Longest(p.pending + data);
    CutStep(s, data, n, m);
    FeedCut(p, data, m);
    SplitAt(s, data, n, m);
  }

  /** The next cut falls where the complete characters of the longer stream end. */
  lemma {:induction false} CutStep(s: seq<byte>, data: seq<byte>, n: nat, m: nat)
    requires n == Longest(s) && m == Longest(s[n..] + data)
    requires |s| - n <= 3 && |data| <= READ_SIZE && |s + data| - Longest(s + data) <= 3
    ensures var all := s[n..] + data; Longest(s + data) == n + m && Kept(all) == all && Cut(all) == m
  {
    var head, all := s[..n], s[n..] + data;
    assert s + data == head + all;
    assert Valid(head) by { LongestValid(s); }
    assert Longest(s + data) == n + m by { LongestConcat(head, all); }
  }

  lemma {:induction false} FeedCut(p: Pipe, data: seq<byte>, m: nat)
    requires |data| > 0 && Kept(p.pending + data) == p.pending + data && Cut(p.pending + data) == m
    requires m <= |p.pending + data|
    ensures var all, p' := p.pending + data, Feed(p, data);
            && Flat(p'.frames) == Flat(p.frames) + all[..m]
            && p'.pending == all[m..] && p'.dropped == p.dropped
  {
    FlatAppend(p.frames, (p.pending + data)[..m]);
  }

  lemma {:induction false} SplitAt(s: seq<byte>, data: seq<byte>, n: nat, m: nat)
    requires n <= |s| && m <= |s[n..] + data|
    ensures (s + data)[..n + m] == s[..n] + (s[n..] + data)[..m]
    ensures (s + data)[n + m..] == (s[n..] + data)[m..]
  {
  }

  /** The cut into reads does not matter. */
  lemma {:induction false} ChunkingIndependent(a: seq<seq<byte>>, b: seq<seq<byte>>)
    requires forall k :: 0 <= k < |a| ==> |a[k]| <= 32_768
    requires forall k :: 0 <= k < |b| ==> |b[k]| <= 32_768
    requires Flat(a) == Flat(b) && Extensible(Flat(a))
    ensures Flat(FeedAll(a).frames) == Flat(FeedAll(b).frames)
    ensures FeedAll(a).pending == FeedAll(b).pending
  {
    Lossless(a);
    Lossless(b);
  }

  // ---------- Arbitrary streams ----------

  /** `s` is what is left of `t` after deleting some of its bytes. */
  predicate Subsequence(s: seq<byte>, t: seq<byte>)
    decreases |t|
  {
    |s| == 0 || (|t| > 0 &&
      ((s[|s| - 1] == t[|t| - 1] && Subsequence(s[..|s| - 1], t[..|t| - 1])) || Subsequence(s, t[..|t| - 1])))
  }

  lemma {:induction false} SubsequenceAppend(s: seq<byte>, t: seq<byte>, c: seq<byte>)
    requires Subsequence(s, t)
    ensures Subsequence(s + c, t + c)
    decreases |c|
  {
    if |c| == 0 {
      assert s + c == s && t + c == t;
    } else {
      var d := c[..|c| - 1];
      SubsequenceAppend(s, t, d);
      assert (s + c)[..|s + c| - 1] == s + d && (t + c)[..|t + c| - 1] == t + d;
    }
  }

  /** Deleting the last byte of the part in front keeps a subsequence. */
  lemma {:induction false} SubsequenceShrink(s: seq<byte>, t: seq<byte>)
    requires Subsequence(s, t) && |s| > 0
    ensures Subsequence(s[..|s| - 1], t)
    decreases |t|
  {
    if s[|s| - 1] == t[|t| - 1] && Subsequence(s[..|s| - 1], t[..|t| - 1]) {
      SubsequenceGrow(s[..|s| - 1], t);
    } else {
      SubsequenceShrink(s, t[..|t| - 1]);
      SubsequenceGrow(s[..|s| - 1], t);
    }
  }

  lemma {:induction false} SubsequenceGrow(s: seq<byte>, t: seq<byte>)
    requires |t| > 0 && Subsequence(s, t[..|t| - 1])
    ensures Subsequence(s, t)
  {
  }

  /** Deleting a middle part keeps a subsequence. */
  lemma {:induction false} SubsequenceDelete(x: seq<byte>, y: seq<byte>, z: seq<byte>, t: seq<byte>)
    requires Subsequence(x + y + z, t)
    ensures Subsequence(x + z, t)
    decreases |t|
  {
    if |z| == 0 {
      assert x + y + z == x + y && x + z == x;
      SubsequenceDrop(x, y, t);
    } else {
      var s, z' := x + y + z, z[..|z| - 1];
      assert s[..|s| - 1] == x + y + z' && (x + z)[..|x + z| - 1] == x + z';
      if s[|s| - 1] == t[|t| - 1] && Subsequence(s[..|s| - 1], t[..|t| - 1]) {
        SubsequenceDelete(x, y, z', t[..|t| - 1]);
      } else {
        SubsequenceDelete(x, y, z, t[..|t| - 1]);
      }
    }
  }

  lemma {:induction false} SubsequenceDrop(x: seq<byte>, y: seq<byte>, t: seq<byte>)
    requires Subsequence(x + y, t)
    ensures Subsequence(x, t)
    decreases |y|
  {
    if |y| == 0 {
      assert x + y == x;
    } else {
      SubsequenceShrink(x + y, t);
      assert (x + y)[..|x + y| - 1] == x + y[..|y| - 1];
      SubsequenceDrop(x, y[..|y| - 1], t);
    }
  }

  lemma {:induction false} SubsequenceLength(s: seq<byte>, t: seq<byte>)
    requires Subsequence(s, t)
    ensures |s| <= |t| && (|s| == |t| ==> s == t)
    decreases |t|
  {
    if |s| == 0 {
    } else {
      if s[|s| - 1] == t[|t| - 1] && Subsequence(s[..|s| - 1], t[..|t| - 1]) {
        SubsequenceLength(s[..|s| - 1], t[..|t| - 1]);
      } else {
        SubsequenceLength(s, t[..|t| - 1]);
      }
    }
  }

  /** Frames a text message may carry (RFC 6455, section 5.6). */
  predicate TextFrames(frames: seq<seq<byte>>) {
    forall k :: 0 <= k < |frames| ==> |frames[k]| > 0 && Valid(frames[k])
  }

  /**
   For any bytes at all: every frame is valid UTF-8 and not empty, frames and pending bytes
   are what is left of the input after deleting the dropped bytes, every byte is accounted
   for, and the buffer stays bounded.
   */
  lemma {:induction false} AnyStream(input: seq<seq<byte>>)
    ensures var s, p := Flat(input), FeedAll(input);
            && TextFrames(p.frames)
            && Subsequence(Flat(p.frames) + p.pending, s)
            && |Flat(p.frames)| + |p.pending| + p.dropped == |s|
            && |p.pending| <= 65_536
    decreases |input|
  {
    if |input| == 0 {
    } else {
      var before, data := input[..|input| - 1], input[|input| - 1];
      AnyStream(before);
      if |data| > 0 {
        AnyStep(FeedAll(before), Flat(before), data);
      } else {
        assert Flat(before) + data == Flat(before);
      }
    }
  }

  lemma {:induction false} AnyStep(p: Pipe, s: seq<byte>, data: seq<byte>)
    requires |data| > 0 && Subsequence(Flat(p.frames) + p.pending, s) && TextFrames(p.frames)
    ensures var p' := Feed(p, data);
            && |p'.pending| <= 2 * READ_SIZE
            && TextFrames(p'.frames)
            && Subsequence(Flat(p'.frames) + p'.pending, s + data)
            && |Flat(p'.frames)| + |p'.pending| + p'.dropped
               == |Flat(p.frames)| + |p.pending| + p.dropped + |data|
  {
    var kept := Kept(p.pending + data);
    KeptIsLeft(Flat(p.frames), p.pending, data, s);
    FeedKept(p, data, kept, Cut(kept));
  }

  lemma {:induction false} KeptIsLeft(sent: seq<byte>, pending: seq<byte>, data: seq<byte>, s: seq<byte>)
    requires Subsequence(sent + pending, s)
    ensures Subsequence(sent + Kept(pending + data), s + data)
  {
    var all := pending + data;
    var kept := Kept(all);
    var lost := all[..|all| - |kept|];
    assert all == lost + kept;
    assert sent + pending + data == sent + all == sent + lost + kept;
    SubsequenceAppend(sent + pending, s, data);
    SubsequenceDelete(sent, lost, kept, s + data);
  }

  lemma {:induction false} FeedKept(p: Pipe, data: seq<byte>, kept: seq<byte>, n: nat)
    requires |data| > 0 && kept == Kept(p.pending + data) && n == Cut(kept) && TextFrames(p.frames)
    ensures var p' := Feed(p, data);
            && TextFrames(p'.frames) && |p'.pending| <= |kept| <= 2 * READ_SIZE
            && Flat(p'.frames) + p'.pending == Flat(p.frames) + kept
            && p'.dropped + |kept| == p.dropped + |p.pending| + |data|
  {
    CutIsLongest(kept, 0);
    Emit(p.frames, kept, n);
  }

  lemma {:induction false} Emit(frames: seq<seq<byte>>, kept: seq<byte>, n: nat)
    requires n <= |kept| && Valid(kept[..n]) && TextFrames(frames)
    ensures var frames' := if n > 0 then frames + [kept[..n]] else frames;
            TextFrames(frames') && Flat(frames') + kept[n..] == Flat(frames) + kept
  {
    FlatAppend(frames, kept[..n]);
    assert kept[..n] + kept[n..] == kept;
  }

  /** Bytes go missing by way of the drop count only. */
  lemma {:induction false} LosslessIffNothingDropped(input: seq<seq<byte>>)
    ensures var p := FeedAll(input); Flat(p.frames) + p.pending == Flat(input) <==> p.dropped == 0
  {
    AnyStream(input);
    var p := FeedAll(input);
    SubsequenceLength(Flat(p.frames) + p.pending, Flat(input));
  }

  // ---------- Exactly when nothing is lost ----------

  /** How many bytes behind its complete characters a stream ends in. */
  function Rest(s: seq<byte>): nat { |s| - Longest(s) }

  /** How many reads there are before the first one that leaves more than three bytes behind the complete characters. */
  function CleanReads(input: seq<seq<byte>>): (b: nat)
    ensures b <= |input|
    ensures forall k :: 0 <= k <= b ==> Rest(Flat(input[..k])) <= 3
    ensures b < |input| ==> Rest(Flat(input[..b + 1])) > 3
    decreases |input|
  {
    if |input| == 0 then 0
    else
      var before := input[..|input| - 1];
      var c := CleanReads(before);
      assert input[..|input|] == input;
      assert forall k :: 0 <= k <= |before| ==> input[..k] == before[..k];
      if c == |before| && Rest(Flat(input)) <= 3 then |input| else c
  }

  /** Where the last frame ends that is cut before the stream goes wrong. */
  function Sent(input: seq<seq<byte>>): (n: nat)
    ensures n <= |Flat(input)|
  {
    FlatPrefix(input, CleanReads(input));
    Longest(Flat(input[..CleanReads(input)]))
  }

  lemma {:induction false} FlatPrefix(input: seq<seq<byte>>, k: nat)
    requires k <= |input|
    ensures |Flat(input[..k])| <= |Flat(input)|
    decreases |input|
  {
    if k < |input| {
      assert input[..|input| - 1][..k] == input[..k];
      FlatPrefix(input[..|input| - 1], k);
    } else {
      assert input[..k] == input;
    }
  }

  /** Four bytes that start no character will never start one. */
  lemma {:induction false} StuckStays(s: seq<byte>, data: seq<byte>)
    requires Rest(s) > 3
    ensures Longest(s + data) == Longest(s) && Rest(s + data) > 3
  {
    var n := Longest(s);
    var rest := s[n..];
    LongestRest(s);
    CharLenLocal(rest, data);
    assert Longest(rest + data) == 0;
    assert s + data == s[..n] + (rest + data);
    LongestValid(s);
    LongestConcat(s[..n], rest + data);
  }

  /** A read that leaves the stream stuck sends nothing. */
  lemma {:induction false} HoldStep(p: Pipe, s: seq<byte>, data: seq<byte>, n: nat)
    requires |data| > 0 && n <= Longest(s) && Valid(s[..n]) && p.pending == s[n..] && Rest(s + data) > 3
    ensures |s| + |data| - n <= 2 * READ_SIZE ==>
              Feed(p, data) == Pipe(p.frames, (s + data)[n..], p.dropped)
    ensures |s| + |data| - n > 2 * READ_SIZE ==> Feed(p, data).dropped > 0
  {
    hide Longest, Valid;
    var all := p.pending + data;
    assert s + data == s[..n] + all && (s + data)[n..] == all by {
      assert s == s[..n] + s[n..];
    }
    LongestConcat(s[..n], all);
    assert Cut(all) == 0;
    FeedHolds(p, data);
  }

  lemma {:induction false} FeedHolds(p: Pipe, data: seq<byte>)
    requires |data| > 0 && Cut(p.pending + data) == 0
    ensures |p.pending| + |data| <= 2 * READ_SIZE ==> Feed(p, data) == Pipe(p.frames, p.pending + data, p.dropped)
    ensures |p.pending| + |data| > 2 * READ_SIZE ==> Feed(p, data).dropped > 0
  {
    hide Cut, Longest;
  }

  /** The state of the loop after any input whose reads fit the buffer. */
  ghost predicate LossExact(input: seq<seq<byte>>) {
    var s, p, n := Flat(input), FeedAll(input), Sent(input);
    && (CleanReads(input) < |input| ==> Rest(s) > 3)
    && Valid(s[..n]) && n <= Longest(s)
    && if |s| - n <= 2 * READ_SIZE then Flat(p.frames) == s[..n] && p.pending == s[n..] && p.dropped == 0
       else p.dropped > 0
  }

  lemma {:induction false} NothingLostYet(input: seq<seq<byte>>)
    requires |input| == 0
    ensures LossExact(input)
  {
    assert input[..0] == input;
  }

  lemma {:induction false} LossIsExact(input: seq<seq<byte>>)
    requires forall k :: 0 <= k < |input| ==> |input[k]| <= READ_SIZE
    ensures LossExact(input)
    decreases |input|
  {
    hide LossExact;
    if |input| == 0 {
      NothingLostYet(input);
    } else {
      var before, data := input[..|input| - 1], input[|input| - 1];
      LossIsExact(before);
      if CleanReads(input) == |input| {
        CleanStep(before, data, input);
      } else {
        StuckStep(before, data, input);
      }
    }
  }

  lemma {:induction false} CleanStep(before: seq<seq<byte>>, data: seq<byte>, input: seq<seq<byte>>)
    requires input == before + [data] && |data| <= READ_SIZE && LossExact(before) && CleanReads(input) == |input|
    ensures LossExact(input)
  {
    var s := Flat(before);
    assert before == input[..|input| - 1];
    FlatAppend(before, data);
    assert CleanReads(before) == |before| && before[..|before|] == before && input[..|input|] == input;
    LongestValid(s + data);
    if |data| == 0 {
      assert s + data == s;
    } else {
      LosslessStep(FeedAll(before), s, data);
    }
  }

  lemma {:induction false} StuckStep(before: seq<seq<byte>>, data: seq<byte>, input: seq<seq<byte>>)
    requires input == before + [data] && |data| <= READ_SIZE && LossExact(before) && CleanReads(input) < |input|
    ensures LossExact(input)
  {
    var s, n := Flat(before), Sent(before);
    assert before == input[..|input| - 1];
    FlatAppend(before, data);
    assert CleanReads(input) == CleanReads(before) && input[..CleanReads(input)] == before[..CleanReads(before)];
    assert Sent(input) == n && (s + data)[..n] == s[..n];
    if CleanReads(before) < |before| {
      StuckStays(s, data);
    }
    LongestMaximal(s + data, n);
    if |data| == 0 {
      assert s + data == s;
    } else if |s| - n <= 2 * READ_SIZE {
      HoldStep(FeedAll(before), s, data, n);
    }
  }

  /**
   The exact condition on the input: frames and pending bytes are the whole of it if and
   only if, counted from where the last good read ended a character, no more follows than
   the buffer holds.  A stream that never goes wrong has at most three bytes to count.
   */
  lemma {:induction false} LosslessIff(input: seq<seq<byte>>)
    requires forall k :: 0 <= k < |input| ==> |input[k]| <= 32_768
    ensures var p := FeedAll(input);
            Flat(p.frames) + p.pending == Flat(input) <==>
              |Flat(input)| - Longest(Flat(input[..CleanReads(input)])) <= 65_536
  {
    LossIsExact(input);
    LosslessIffNothingDropped(input);
  }

  // ---------- Bytes that start no character ----------

  function Junk(n: nat): (s: seq<byte>)
    ensures |s| == n
  {
    seq(n, i => 0xFF)
  }

  function JunkReads(n: nat): (r: seq<seq<byte>>)
    ensures |r| == n
  {
    seq(n, i => Junk(READ_SIZE))
  }

  lemma {:induction false} JunkIsFlat(n: nat)
    ensures Flat(JunkReads(n)) == Junk(n * READ_SIZE)
  {
    if n == 0 {
    } else {
      JunkIsFlat(n - 1);
      assert JunkReads(n)[..n - 1] == JunkReads(n - 1);
      assert Junk((n - 1) * READ_SIZE) + Junk(READ_SIZE) == Junk(n * READ_SIZE);
    }
  }

  lemma {:induction false} JunkSendsNothing(n: nat)
    ensures Longest(Flat(JunkReads(n)[..CleanReads(JunkReads(n))])) == 0
  {
    var input := JunkReads(n);
    if n == 0 {
      assert input[..CleanReads(input)] == input;
    } else {
      assert input[..1] == JunkReads(1);
      JunkIsFlat(1);
      assert Junk(1 * READ_SIZE) == Junk(READ_SIZE) && Longest(Junk(READ_SIZE)) == 0;
      assert Rest(Flat(input[..1])) > 3;
      assert CleanReads(input) == 0;
      assert |input[..0]| == 0;
    }
  }

  /** Full reads of 0xFF lose bytes exactly from the third one on. */
  lemma {:induction false} InvalidInputLosesBytes(n: nat)
    ensures var p := FeedAll(JunkReads(n)); Flat(p.frames) + p.pending == Flat(JunkReads(n)) <==> n <= 2
  {
    hide Longest, CleanReads, FeedAll, Flat;
    LosslessIff(JunkReads(n));
    JunkIsFlat(n);
    JunkSendsNothing(n);
  }

  /** A byte that starts no character holds everything back until the buffer overflows. */
  lemma {:induction false} JunkStep(k: nat, d: nat)
    requires k <= 2 * READ_SIZE
    ensures var p' := Feed(Pipe([], Junk(k), d), Junk(READ_SIZE));
            p' == if k + READ_SIZE <= 2 * READ_SIZE then Pipe([], Junk(k + READ_SIZE), d)
                  else Pipe([], Junk(3), d + k + READ_SIZE - 3)
  {
    var all := Junk(k) + Junk(READ_SIZE);
    assert all == Junk(k + READ_SIZE);
    assert all[|all| - 3..] == Junk(3);
    assert Longest(Kept(all)) == 0;
  }

  /** What is left of three such reads: three bytes and no frame. */
  lemma {:induction false} OverflowKeepsThreeBytes()
    ensures var j := Junk(READ_SIZE); FeedAll([j, j, j]) == Pipe([], Junk(3), 3 * READ_SIZE - 3)
  {
    var j := Junk(READ_SIZE);
    var none: seq<seq<byte>> := [];
    assert [j, j, j][..2] == [j, j] && [j, j][..1] == [j] && [j][..0] == none;
    assert Junk(0) == [];
    JunkStep(0, 0);
    assert FeedAll([j]) == Pipe([], j, 0);
    JunkStep(READ_SIZE, 0);
    assert FeedAll([j, j]) == Pipe([], Junk(2 * READ_SIZE), 0);
    JunkStep(2 * READ_SIZE, 0);
  }
}
