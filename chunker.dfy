/** `chunk_text`: splitting a document's text into windows of at most
    `maxLen` characters, preferring to cut at the last newline, then at
    the last space of the window. */
module Chunker {
  import opened Text

  /** The chunk length the upload path uses (the default argument). */
  const DefaultMaxLen: int := 1000

  /** What one call of `chunk_text` does.  `Chunks(cs)`: the loop ends and
      returns `cs`.  `Diverges(done, at)`: the loop never ends.  For
      max_len >= 0, `done` are the chunks appended before start reached
      `at`, from where start never advances again and only "" is appended.
      For max_len < 0 the loop never ends either (every cut lies below
      len(text)), but Python reads its negative bounds from the end of the
      text, so start moves backwards or jumps to a newline and the chunks
      appended are not followed: that run is summarised as
      `Diverges([], 0)`. */
  datatype ChunkOutcome = Chunks(chunks: seq<string>) | Diverges(done: seq<string>, at: nat)

  function PrependAll(cs: seq<string>, o: ChunkOutcome): (r: ChunkOutcome)
  {
    match o
    case Chunks(rest) => Chunks(cs + rest)
    case Diverges(done, at) => Diverges(cs + done, at)
  }

  lemma PrependAllTwice(a: seq<string>, b: seq<string>, o: ChunkOutcome)
    ensures PrependAll(a, PrependAll(b, o)) == PrependAll(a + b, o)
  {
    match o
    case Chunks(cs) => assert a + (b + cs) == (a + b) + cs;
    case Diverges(done, at) => assert a + (b + done) == (a + b) + done;
  }

  /** Every chunk is non-empty and at most `maxLen` long. */
  ghost predicate Bounded(cs: seq<string>, maxLen: int)
  {
    forall i :: 0 <= i < |cs| ==> 0 < |cs[i]| <= maxLen
  }

  lemma BoundedCons(c: string, cs: seq<string>, maxLen: int)
    requires 0 < |c| <= maxLen && Bounded(cs, maxLen)
    ensures Bounded([c] + cs, maxLen)
  {
    forall i | 0 <= i < |[c] + cs|
      ensures 0 < |([c] + cs)[i]| <= maxLen
    {
      if i > 0 {
        assert ([c] + cs)[i] == cs[i - 1];
      }
    }
  }

  /** The value `end` has when text[start:end] is appended, for a window
      that starts at `start` (the clamp to |text| is Python's slicing). */
  function Cut(text: string, start: nat, maxLen: int): (end: nat)
    requires start < |text| && maxLen > 0
    ensures start <= end <= |text| && end - start <= maxLen
    ensures start + maxLen >= |text| ==> end == |text|
  {
    var end := start + maxLen;
    if end < |text| then
      var nl := RFind(text, '\n', start, end);
      var split := if nl == -1 then RFind(text, ' ', start, end) else nl;
      if split != -1 then split else end
    else |text|
  }

  /** Where an inner window (one that does not reach the end of the text)
      is cut: at its last newline; failing that, at its last space; failing
      that, after `maxLen` characters. */
  lemma CutRule(text: string, start: nat, maxLen: int)
    requires start < |text| && maxLen > 0 && start + maxLen < |text|
    ensures var hi, end := start + maxLen, Cut(text, start, maxLen);
            && (Occurs(text, '\n', start, hi) ==> IsLast(text, '\n', start, hi, end))
            && (!Occurs(text, '\n', start, hi) && Occurs(text, ' ', start, hi) ==>
                  IsLast(text, ' ', start, hi, end))
            && (!Occurs(text, '\n', start, hi) && !Occurs(text, ' ', start, hi) ==>
                  end == hi)
  {
  }

  /** The loop of `chunk_text` from a given `start`. */
  function ChunkFrom(text: string, maxLen: int, start: nat): (r: ChunkOutcome)
    ensures r.Diverges? ==> start <= r.at < |text|
    decreases |text| - start
  {
    if start >= |text| then Chunks([])
    else if maxLen <= 0 then Diverges([], start)
    else
      var end := Cut(text, start, maxLen);
      if end == start then Diverges([], start)
      else PrependAll([text[start..end]], ChunkFrom(text, maxLen, end))
  }

  lemma ChunkFromStep(text: string, maxLen: int, start: nat)
    requires start < |text| && maxLen > 0 && Cut(text, start, maxLen) != start
    ensures ChunkFrom(text, maxLen, start)
            == PrependAll([text[start..Cut(text, start, maxLen)]], ChunkFrom(text, maxLen, Cut(text, start, maxLen)))
  {
  }

  lemma ChunkFromStall(text: string, maxLen: int, start: nat)
    requires start < |text| && (maxLen <= 0 || Cut(text, start, maxLen) == start)
    ensures ChunkFrom(text, maxLen, start) == Diverges([], start)
  {
  }

  lemma ChunkFromPast(text: string, maxLen: int, start: nat)
    requires start >= |text|
    ensures ChunkFrom(text, maxLen, start) == Chunks([])
  {
  }

  /** chunk_text(text, maxLen) */
  function ChunkRun(text: string, maxLen: int): (r: ChunkOutcome)
    ensures text == [] ==> r == Chunks([])
    ensures r.Diverges? ==> r.at < |text|
  {
    ChunkFrom(text, maxLen, 0)
  }

  /** Empty text gives no chunks; text that fits one window is one chunk. */
  lemma ShortText(text: string, maxLen: int)
    ensures text == [] ==> ChunkRun(text, maxLen) == Chunks([])
    ensures 0 < |text| <= maxLen ==> ChunkRun(text, maxLen) == Chunks([text])
  {
    if 0 < |text| <= maxLen {
      assert Cut(text, 0, maxLen) == |text|;
      assert text[0..|text|] == text;
      assert ChunkFrom(text, maxLen, 0) == PrependAll([text], ChunkFrom(text, maxLen, |text|));
    }
  }

  /** When the loop ends, the chunks it appended from `start` concatenate
      to text[start..] exactly. */
  lemma {:induction false} ChunkFromConcat(text: string, maxLen: int, start: nat)
    requires start <= |text|
    ensures ChunkFrom(text, maxLen, start).Chunks? ==>
              Concat(ChunkFrom(text, maxLen, start).chunks) == text[start..]
    decreases |text| - start
  {
    if start == |text| {
      ChunkFromPast(text, maxLen, start);
      assert text[start..] == [];
    } else if maxLen <= 0 || Cut(text, start, maxLen) == start {
      ChunkFromStall(text, maxLen, start);
    } else {
      var end := Cut(text, start, maxLen);
      ChunkFromConcat(text, maxLen, end);
      var rest := ChunkFrom(text, maxLen, end);
      ChunkFromStep(text, maxLen, start);
      if rest.Chunks? {
        assert text[end..] == text[end..|text|];
        ConcatSlices(text, start, end, |text|, rest.chunks);
        assert text[start..] == text[start..|text|];
      }
    }
  }

  /** When the loop never ends, the chunks appended before it got stuck at
      `at` concatenate to text[start..at], and the window at `at` is one
      whose cut does not move (or `maxLen` is not positive). */
  lemma {:induction false} ChunkFromDiverges(text: string, maxLen: int, start: nat)
    requires start <= |text|
    ensures ChunkFrom(text, maxLen, start).Diverges? ==>
              var o := ChunkFrom(text, maxLen, start);
              start <= o.at < |text| && Concat(o.done) == text[start..o.at]
              && (maxLen <= 0 || Cut(text, o.at, maxLen) == o.at)
    decreases |text| - start
  {
    if start == |text| {
      ChunkFromPast(text, maxLen, start);
    } else if maxLen <= 0 || Cut(text, start, maxLen) == start {
      ChunkFromStall(text, maxLen, start);
      assert text[start..start] == [];
    } else {
      var end := Cut(text, start, maxLen);
      ChunkFromDiverges(text, maxLen, end);
      var rest := ChunkFrom(text, maxLen, end);
      ChunkFromStep(text, maxLen, start);
      if rest.Diverges? {
        ConcatSlices(text, start, end, rest.at, rest.done);
      }
    }
  }

  /** Every chunk the loop appends is non-empty and at most `maxLen` long. */
  lemma {:induction false} ChunkFromBounded(text: string, maxLen: int, start: nat)
    requires start <= |text|
    ensures ChunkFrom(text, maxLen, start).Chunks? ==>
              Bounded(ChunkFrom(text, maxLen, start).chunks, maxLen)
    ensures ChunkFrom(text, maxLen, start).Diverges? ==>
              Bounded(ChunkFrom(text, maxLen, start).done, maxLen)
    decreases |text| - start
  {
    if start < |text| && maxLen > 0 {
      var end := Cut(text, start, maxLen);
      if end != start {
        ChunkFromBounded(text, maxLen, end);
        var c := text[start..end];
        var rest := ChunkFrom(text, maxLen, end);
        ChunkFromStep(text, maxLen, start);
        match rest
        case Chunks(cs) => BoundedCons(c, cs, maxLen);
        case Diverges(done, at) => BoundedCons(c, done, maxLen);
      }
    }
  }

  /** The source's loop stops advancing exactly when the window is an
      inner one and its chosen break character sits at `start` itself:
      a newline at `start` with no later newline in the window, or a space
      at `start` with no later space and no newline in the window. */
  lemma StallIff(text: string, start: nat, maxLen: int)
    requires start < |text| && maxLen > 0
    ensures Cut(text, start, maxLen) == start <==>
              start + maxLen < |text| &&
              ((text[start] == '\n' && !Occurs(text, '\n', start + 1, start + maxLen)) ||
               (text[start] == ' ' && !Occurs(text, '\n', start, start + maxLen)
                && !Occurs(text, ' ', start + 1, start + maxLen)))
  {
    var hi := start + maxLen;
    if hi < |text| {
      CutRule(text, start, maxLen);
      if text[start] == '\n' && !Occurs(text, '\n', start + 1, hi) {
        assert IsLast(text, '\n', start, hi, start);
      } else if text[start] == ' ' && !Occurs(text, '\n', start, hi)
          && !Occurs(text, ' ', start + 1, hi) {
        assert IsLast(text, ' ', start, hi, start);
      } else if Occurs(text, '\n', start + 1, hi) {
        var i :| start + 1 <= i < hi && CharAt(text, i, '\n');
        assert Cut(text, start, maxLen) >= i;
      } else if !Occurs(text, '\n', start, hi) && Occurs(text, ' ', start + 1, hi) {
        var i :| start + 1 <= i < hi && CharAt(text, i, ' ');
        assert Cut(text, start, maxLen) >= i;
      }
    }
  }

  /** chunk_text as written (lines 119-133).  A window whose cut does not
      move makes the source append "" and repeat the same iteration
      forever; the method reports that as `Diverges`. */
  method ChunkText(text: string, maxLen: int) returns (out: ChunkOutcome)
    ensures out == ChunkRun(text, maxLen)
    ensures out.Chunks? ==> Concat(out.chunks) == text && Bounded(out.chunks, maxLen)
    ensures out.Diverges? ==>
              out.at < |text| && Concat(out.done) == text[..out.at]
              && (maxLen <= 0 || Cut(text, out.at, maxLen) == out.at)
  {
    if maxLen <= 0 && |text| > 0 {
      // start never reaches |text|: every cut lies below |text|
      out := Diverges([], 0);
      RunSound(text, maxLen);
      return;
    }
    var chunks: seq<string> := [];
    var start: nat := 0;
    while start < |text|
      invariant ChunkRun(text, maxLen) == PrependAll(chunks, ChunkFrom(text, maxLen, start))
      decreases |text| - start
    {
      ghost var cut := Cut(text, start, maxLen);
      var end := start + maxLen;
      if end < |text| {
        var split := RFind(text, '\n', start, end);
        if split == -1 {
          split := RFind(text, ' ', start, end);
        }
        if split != -1 {
          end := split;
        }
      }
      if end == start {
        // text[start:start] == "" is appended and start stays put: the loop never ends
        assert ChunkFrom(text, maxLen, start) == Diverges([], start);
        assert chunks + [] == chunks;
        out := Diverges(chunks, start);
        RunSound(text, maxLen);
        return;
      }
      var chunk := text[start..if end < |text| then end else |text|];
      assert (if end < |text| then end else |text|) == cut;
      ChunkFromStep(text, maxLen, start);
      if end >= |text| {
        ChunkFromPast(text, maxLen, end);
        ChunkFromPast(text, maxLen, cut);
      }
      PrependAllTwice(chunks, [chunk], ChunkFrom(text, maxLen, end));
      chunks := chunks + [chunk];
      start := end;
    }
    assert ChunkFrom(text, maxLen, start) == Chunks([]);
    assert chunks + [] == chunks;
    out := Chunks(chunks);
    RunSound(text, maxLen);
  }

  /** The properties of ChunkFromConcat and ChunkFromBounded for a whole run. */
  lemma RunSound(text: string, maxLen: int)
    ensures ChunkRun(text, maxLen).Chunks? ==>
              Concat(ChunkRun(text, maxLen).chunks) == text && Bounded(ChunkRun(text, maxLen).chunks, maxLen)
    ensures ChunkRun(text, maxLen).Diverges? ==>
              var o := ChunkRun(text, maxLen);
              o.at < |text| && Concat(o.done) == text[..o.at]
              && (maxLen <= 0 || Cut(text, o.at, maxLen) == o.at)
  {
    ChunkFromConcat(text, maxLen, 0);
    ChunkFromDiverges(text, maxLen, 0);
    ChunkFromBounded(text, maxLen, 0);
    assert text[0..] == text;
  }

  /** The input that makes the source loop forever: "aaaa" is cut at the
      space, and the next window [4, 10) has its only space at index 4. */
  lemma StallExample()
    ensures ChunkRun("aaaa bbbbbbbbbb", 6) == Diverges(["aaaa"], 4)
  {
    var t := "aaaa bbbbbbbbbb";
    assert !Occurs(t, '\n', 0, 6);
    assert IsLast(t, ' ', 0, 6, 4);
    assert Cut(t, 0, 6) == 4;
    assert !Occurs(t, '\n', 4, 10);
    assert IsLast(t, ' ', 4, 10, 4);
    assert Cut(t, 4, 6) == 4;
    assert ChunkFrom(t, 6, 4) == Diverges([], 4);
    assert t[0..4] == "aaaa";
  }

  // ---------------------------------------------------------------------
  // The corrected chunker: the break character is searched for after
  // `start`, so every cut moves forward.

  function CutFixed(text: string, start: nat, maxLen: int): (end: nat)
    requires start < |text| && maxLen > 0
    ensures start < end <= |text| && end - start <= maxLen
    ensures start + maxLen >= |text| ==> end == |text|
  {
    var end := start + maxLen;
    if end < |text| then
      var nl := RFind(text, '\n', start + 1, end);
      var split := if nl == -1 then RFind(text, ' ', start + 1, end) else nl;
      if split != -1 then split else end
    else |text|
  }

  /** The corrected rule for an inner window: the last newline after
      `start`; failing that, the last space after `start`; failing that,
      after `maxLen` characters. */
  lemma CutFixedRule(text: string, start: nat, maxLen: int)
    requires start < |text| && maxLen > 0 && start + maxLen < |text|
    ensures var hi, end := start + maxLen, CutFixed(text, start, maxLen);
            && (Occurs(text, '\n', start + 1, hi) ==> IsLast(text, '\n', start + 1, hi, end))
            && (!Occurs(text, '\n', start + 1, hi) && Occurs(text, ' ', start + 1, hi) ==>
                  IsLast(text, ' ', start + 1, hi, end))
            && (!Occurs(text, '\n', start + 1, hi) && !Occurs(text, ' ', start + 1, hi) ==>
                  end == hi)
  {
  }

  function FixedChunkFrom(text: string, maxLen: int, start: nat): (chunks: seq<string>)
    requires maxLen > 0
    decreases |text| - start
  {
    if start >= |text| then []
    else
      var end := CutFixed(text, start, maxLen);
      [text[start..end]] + FixedChunkFrom(text, maxLen, end)
  }

  lemma FixedChunkFromStep(text: string, maxLen: int, start: nat)
    requires start < |text| && maxLen > 0
    ensures FixedChunkFrom(text, maxLen, start)
            == [text[start..CutFixed(text, start, maxLen)]] + FixedChunkFrom(text, maxLen, CutFixed(text, start, maxLen))
  {
  }

  lemma FixedChunkFromPast(text: string, maxLen: int, start: nat)
    requires maxLen > 0 && start >= |text|
    ensures FixedChunkFrom(text, maxLen, start) == []
  {
  }

  lemma {:induction false} FixedChunkFromSound(text: string, maxLen: int, start: nat)
    requires maxLen > 0 && start <= |text|
    ensures Concat(FixedChunkFrom(text, maxLen, start)) == text[start..]
    ensures Bounded(FixedChunkFrom(text, maxLen, start), maxLen)
    decreases |text| - start
  {
    if start < |text| {
      var end := CutFixed(text, start, maxLen);
      FixedChunkFromSound(text, maxLen, end);
      var cs := FixedChunkFrom(text, maxLen, end);
      assert ([text[start..end]] + cs)[1..] == cs;
      assert text[start..] == text[start..end] + text[end..];
    }
  }

  /** On the input that makes the source loop forever, the corrected
      chunker cuts "aaaa" at the space, then makes a hard cut, since the
      window [4, 10) has no space after index 4. */
  lemma FixedExample()
    ensures FixedChunks("aaaa bbbbbbbbbb", 6) == ["aaaa", " bbbbb", "bbbbb"]
  {
    var t := "aaaa bbbbbbbbbb";
    assert !Occurs(t, '\n', 1, 6);
    assert IsLast(t, ' ', 1, 6, 4);
    assert CutFixed(t, 0, 6) == 4;
    assert !Occurs(t, '\n', 5, 10);
    assert !Occurs(t, ' ', 5, 10);
    assert CutFixed(t, 4, 6) == 10;
    assert CutFixed(t, 10, 6) == 15;
    FixedChunkFromPast(t, 6, 15);
    assert FixedChunkFrom(t, 6, 10) == [t[10..15]];
    assert FixedChunkFrom(t, 6, 4) == [t[4..10], t[10..15]];
    assert t[0..4] == "aaaa" && t[4..10] == " bbbbb" && t[10..15] == "bbbbb";
  }

  /** Wherever the source's cut moves forward, the corrected cut is the same. */
  lemma CutAgrees(text: string, start: nat, maxLen: int)
    requires start < |text| && maxLen > 0
    requires Cut(text, start, maxLen) != start
    ensures CutFixed(text, start, maxLen) == Cut(text, start, maxLen)
  {
  }

  /** On every input where chunk_text terminates, the corrected chunker
      returns exactly the same chunks. */
  lemma {:induction false} FixedAgrees(text: string, maxLen: int, start: nat)
    requires maxLen > 0 && start <= |text|
    requires ChunkFrom(text, maxLen, start).Chunks?
    ensures FixedChunkFrom(text, maxLen, start) == ChunkFrom(text, maxLen, start).chunks
    decreases |text| - start
  {
    if start < |text| {
      var end := Cut(text, start, maxLen);
      CutAgrees(text, start, maxLen);
      FixedAgrees(text, maxLen, end);
    }
  }

  /** The corrected chunk_text. */
  function FixedChunks(text: string, maxLen: int): (chunks: seq<string>)
    requires maxLen > 0
  {
    FixedChunkFrom(text, maxLen, 0)
  }

  /** The corrected chunker always terminates, puts the text back exactly,
      never yields an empty or over-long chunk, and wherever chunk_text
      terminates it returns the same chunks. */
  lemma FixedChunksSound(text: string, maxLen: int)
    requires maxLen > 0
    ensures Concat(FixedChunks(text, maxLen)) == text
    ensures Bounded(FixedChunks(text, maxLen), maxLen)
    ensures ChunkRun(text, maxLen).Chunks? ==> FixedChunks(text, maxLen) == ChunkRun(text, maxLen).chunks
  {
    FixedChunkFromSound(text, maxLen, 0);
    assert text[0..] == text;
    if ChunkRun(text, maxLen).Chunks? {
      FixedAgrees(text, maxLen, 0);
    }
  }

  /** The corrected loop: the same as chunk_text except that the break
      characters are searched for in text[start+1:end]. */
  method ChunkTextFixed(text: string, maxLen: int) returns (chunks: seq<string>)
    requires maxLen > 0
    ensures chunks == FixedChunks(text, maxLen)
  {
    chunks := [];
    var start: nat := 0;
    while start < |text|
      invariant chunks + FixedChunkFrom(text, maxLen, start) == FixedChunks(text, maxLen)
      decreases |text| - start
    {
      ghost var cut := CutFixed(text, start, maxLen);
      var end := start + maxLen;
      if end < |text| {
        var split := RFind(text, '\n', start + 1, end);
        if split == -1 {
          split := RFind(text, ' ', start + 1, end);
        }
        if split != -1 {
          end := split;
        }
      }
      var chunk := text[start..if end < |text| then end else |text|];
      assert (if end < |text| then end else |text|) == cut;
      FixedChunkFromStep(text, maxLen, start);
      if end >= |text| {
        FixedChunkFromPast(text, maxLen, end);
        FixedChunkFromPast(text, maxLen, cut);
      }
      assert chunks + ([chunk] + FixedChunkFrom(text, maxLen, end))
          == (chunks + [chunk]) + FixedChunkFrom(text, maxLen, end);
      chunks := chunks + [chunk];
      start := end;
    }
    assert FixedChunkFrom(text, maxLen, start) == [];
    assert chunks + [] == chunks;
  }
}
