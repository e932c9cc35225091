/** The few Python string operations the retrieval code relies on:
    `str.rfind` for a one-character needle, `str.join`, `str.lower`,
    `str.endswith`, and concatenation of a list of strings. */
module Text {

  /** s[i] is `c`.  Named so that the quantifiers of Occurs and IsLast
      trigger only on CharAt terms, which keeps their proofs cheap. */
  ghost predicate CharAt(s: string, i: int, c: char)
    requires 0 <= i < |s|
  {
    s[i] == c
  }

  /** `c` occurs somewhere in s[lo:hi]. */
  ghost predicate Occurs(s: string, c: char, lo: int, hi: int)
    requires 0 <= lo && hi <= |s|
  {
    exists i :: lo <= i < hi && CharAt(s, i, c)
  }

  /** `i` is the last position of `c` in s[lo:hi]. */
  ghost predicate IsLast(s: string, c: char, lo: int, hi: int, i: int)
    requires 0 <= lo && hi <= |s|
  {
    lo <= i < hi && CharAt(s, i, c) && forall j :: i < j < hi ==> !CharAt(s, j, c)
  }

  /** Python's `s.rfind(c, lo, hi)` for a single character `c` and
      0 <= lo, hi <= len(s): the highest index of `c` in s[lo:hi], or -1. */
  function RFind(s: string, c: char, lo: nat, hi: int): (r: int)
    requires hi <= |s|
    ensures r == -1 <==> !Occurs(s, c, lo, hi)
    ensures r != -1 ==> IsLast(s, c, lo, hi, r)
    decreases hi - lo
  {
    if hi <= lo then -1
    else if s[hi - 1] == c then assert CharAt(s, hi - 1, c); hi - 1
    else RFind(s, c, lo, hi - 1)
  }

  /** The parts one after the other ("".join(parts)); the code never calls
      it, but it states what the chunks of a text put back together are. */
  function Concat(parts: seq<string>): (r: string)
  {
    if parts == [] then "" else parts[0] + Concat(parts[1..])
  }

  lemma ConcatCons(c: string, cs: seq<string>)
    ensures Concat([c] + cs) == c + Concat(cs)
  {
    assert ([c] + cs)[1..] == cs;
  }

  lemma {:induction false} ConcatAppend(a: seq<string>, b: seq<string>)
    ensures Concat(a + b) == Concat(a) + Concat(b)
  {
    if a == [] {
      assert a + b == b;
    } else {
      assert (a + b)[1..] == a[1..] + b;
      ConcatAppend(a[1..], b);
    }
  }

  /** Putting a slice in front of the parts that rebuild the rest of `s`
      rebuilds `s` from the slice's start. */
  lemma ConcatSlices(s: string, i: nat, j: nat, k: nat, cs: seq<string>)
    requires i <= j <= k <= |s| && Concat(cs) == s[j..k]
    ensures Concat([s[i..j]] + cs) == s[i..k]
  {
    ConcatCons(s[i..j], cs);
    assert s[i..k] == s[i..j] + s[j..k];
  }

  /** sep.join(parts) */
  function Join(parts: seq<string>, sep: string): (r: string)
  {
    if parts == [] then ""
    else if |parts| == 1 then parts[0]
    else parts[0] + sep + Join(parts[1..], sep)
  }

  /** Each part with the separator in front of it. */
  function Prefixed(parts: seq<string>, sep: string): (r: seq<string>)
    ensures |r| == |parts|
  {
    seq(|parts|, i requires 0 <= i < |parts| => sep + parts[i])
  }

  /** The joined string is the first part, then every later part in order,
      each preceded by one separator, and nothing else. */
  lemma {:induction false} JoinShape(parts: seq<string>, sep: string)
    requires parts != []
    ensures Join(parts, sep) == parts[0] + Concat(Prefixed(parts[1..], sep))
  {
    if |parts| == 1 {
      assert Prefixed(parts[1..], sep) == [];
    } else {
      var tail := parts[1..];
      JoinShape(tail, sep);
      assert tail[1..] == parts[2..];
      assert Prefixed(tail, sep) == [sep + tail[0]] + Prefixed(tail[1..], sep);
      ConcatCons(sep + tail[0], Prefixed(tail[1..], sep));
    }
  }

  /** The joined string is as long as the parts plus one separator between
      each two neighbouring parts. */
  lemma {:induction false} JoinLength(parts: seq<string>, sep: string)
    requires parts != []
    ensures |Join(parts, sep)| == |Concat(parts)| + (|parts| - 1) * |sep|
  {
    if |parts| > 1 {
      JoinLength(parts[1..], sep);
    }
  }

  /** ASCII lower-casing of one character (the part of `str.lower` that
      matters for a file extension). */
  function LowerChar(c: char): (l: char)
  {
    if 'A' <= c <= 'Z' then (c as int + 32) as char else c
  }

  function Lower(s: string): (l: string)
  {
    seq(|s|, i requires 0 <= i < |s| => LowerChar(s[i]))
  }

  /** s.endswith(suffix) */
  predicate EndsWith(s: string, suffix: string)
  {
    |suffix| <= |s| && s[|s| - |suffix|..] == suffix
  }
}
