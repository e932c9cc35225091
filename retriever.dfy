/** The query half of `chat`: score every record against the query's
    embedding, sort by descending score (stably, as Python's `sorted` with
    `reverse=True`), keep the first k, and join their chunks into the
    context handed to the completion model. */
module Retriever {
  import opened Text
  import opened VectorStore

  datatype Option<T> = None | Some(value: T)

  /** The number of chunks the query keeps. */
  const K: nat := 3

  /** The separator between chunks in the context. */
  const Separator: string := "\n\n"

  /** {"chunk": item["chunk"], "score": ...} */
  datatype Scored = Scored(chunk: string, score: real)

  /** The list comprehension of scores: one entry per record, in store
      order, scored by `similarity(queryEmbedding, record.embedding)`. */
  function ScoreAll(records: seq<Record>, q: Vector, similarity: (Vector, Vector) -> real): (scored: seq<Scored>)
    ensures |scored| == |records|
    ensures forall i :: 0 <= i < |records| ==>
              scored[i] == Scored(records[i].chunk, similarity(q, records[i].embedding))
  {
    seq(|records|, i requires 0 <= i < |records| => Scored(records[i].chunk, similarity(q, records[i].embedding)))
  }

  ghost predicate NonIncreasing(s: seq<Scored>)
  {
    forall i, j :: 0 <= i < j < |s| ==> s[i].score >= s[j].score
  }

  /** The entries of `s` whose score is `v`, in their order in `s`. */
  function WithScore(s: seq<Scored>, v: real): (r: seq<Scored>)
  {
    if s == [] then []
    else (if s[0].score == v then [s[0]] else []) + WithScore(s[1..], v)
  }

  /** Insert `x` before the first entry whose score is not above its own. */
  function Insert(x: Scored, t: seq<Scored>): (r: seq<Scored>)
    ensures |r| == |t| + 1
  {
    if t == [] || x.score >= t[0].score then [x] + t
    else [t[0]] + Insert(x, t[1..])
  }

  /** sorted(s, key=score, reverse=True): inserting each entry, from the
      last to the first, in front of the entries of equal score. */
  function SortByScore(s: seq<Scored>): (sorted: seq<Scored>)
    ensures |sorted| == |s|
  {
    if s == [] then [] else Insert(s[0], SortByScore(s[1..]))
  }

  lemma WithScoreCons(x: Scored, t: seq<Scored>, v: real)
    ensures WithScore([x] + t, v) == (if x.score == v then [x] else []) + WithScore(t, v)
  {
    assert ([x] + t)[1..] == t;
  }
  lemma {:induction false} InsertPermutes(x: Scored, t: seq<Scored>)
    ensures multiset(Insert(x, t)) == multiset(t) + multiset{x}
  {
    if t != [] && x.score < t[0].score {
      InsertPermutes(x, t[1..]);
      assert t == [t[0]] + t[1..];
    }
  }

  lemma {:induction false} InsertSorted(x: Scored, t: seq<Scored>)
    requires NonIncreasing(t)
    ensures NonIncreasing(Insert(x, t))
  {
    if t != [] && x.score < t[0].score {
      var rest := Insert(x, t[1..]);
      InsertSorted(x, t[1..]);
      InsertPermutes(x, t[1..]);
      var r := [t[0]] + rest;
      forall j | 0 < j < |r| ensures t[0].score >= r[j].score {
        var e := rest[j - 1];
        assert e in multiset(rest);
        if e != x {
          assert e in multiset(t[1..]);
          var k :| 0 <= k < |t[1..]| && t[1..][k] == e;
          assert t[k + 1] == e;
        }
      }
    }
  }

  lemma {:induction false} InsertStable(x: Scored, t: seq<Scored>, v: real)
    ensures WithScore(Insert(x, t), v) == (if x.score == v then [x] else []) + WithScore(t, v)
  {
    if t == [] || x.score >= t[0].score {
      WithScoreCons(x, t, v);
    } else {
      var rest := Insert(x, t[1..]);
      InsertStable(x, t[1..], v);
      WithScoreCons(t[0], rest, v);
      assert t == [t[0]] + t[1..];
      WithScoreCons(t[0], t[1..], v);
      if x.score == v {
        assert t[0].score != v;
        assert WithScore(Insert(x, t), v) == [x] + WithScore(t[1..], v);
        assert WithScore(t, v) == WithScore(t[1..], v);
      } else if t[0].score == v {
        assert WithScore(Insert(x, t), v) == [t[0]] + WithScore(t[1..], v);
      } else {
        assert WithScore(Insert(x, t), v) == WithScore(t[1..], v);
      }
    }
  }

  /** SortByScore is the stable descending sort: it permutes its input, the
      scores come out non-increasing, and entries of equal score keep their
      relative order. */
  lemma {:induction false} SortByScoreSound(s: seq<Scored>)
    ensures multiset(SortByScore(s)) == multiset(s)
    ensures NonIncreasing(SortByScore(s))
    ensures forall v :: WithScore(SortByScore(s), v) == WithScore(s, v)
  {
    if s != [] {
      var rest := SortByScore(s[1..]);
      SortByScoreSound(s[1..]);
      InsertPermutes(s[0], rest);
      InsertSorted(s[0], rest);
      assert s == [s[0]] + s[1..];
      forall v ensures WithScore(SortByScore(s), v) == WithScore(s, v) {
        InsertStable(s[0], rest, v);
      }
    }
  }

  /** A non-increasing sequence starts with a largest score. */
  lemma FirstIsMax(a: seq<Scored>, e: Scored)
    requires NonIncreasing(a) && e in a
    ensures a[0].score >= e.score
  {
    var i :| 0 <= i < |a| && a[i] == e;
  }

  lemma MultisetTail(a: seq<Scored>)
    requires a != []
    ensures multiset(a[1..]) == multiset(a) - multiset{a[0]}
  {
    assert a == [a[0]] + a[1..];
    assert multiset(a) == multiset{a[0]} + multiset(a[1..]);
  }

  lemma SortedTail(a: seq<Scored>)
    requires a != [] && NonIncreasing(a)
    ensures NonIncreasing(a[1..])
  {
    forall i, j | 0 <= i < j < |a[1..]| ensures a[1..][i].score >= a[1..][j].score {
      assert a[1..][i] == a[i + 1] && a[1..][j] == a[j + 1];
    }
  }

  /** Two sequences that agree on their first entry and on every
      WithScore also agree on every WithScore of their tails. */
  lemma TailsAgree(a: seq<Scored>, b: seq<Scored>)
    requires a != [] && b != [] && a[0] == b[0]
    requires forall v :: WithScore(a, v) == WithScore(b, v)
    ensures forall u :: WithScore(a[1..], u) == WithScore(b[1..], u)
  {
    forall u ensures WithScore(a[1..], u) == WithScore(b[1..], u) {
      var h := if a[0].score == u then [a[0]] else [];
      assert WithScore(a, u) == WithScore(b, u);
      assert a == [a[0]] + a[1..] && b == [b[0]] + b[1..];
      WithScoreCons(a[0], a[1..], u);
      WithScoreCons(b[0], b[1..], u);
      assert (h + WithScore(a[1..], u))[|h|..] == WithScore(a[1..], u);
      assert (h + WithScore(b[1..], u))[|h|..] == WithScore(b[1..], u);
    }
  }

  lemma WithScoreHead(a: seq<Scored>)
    requires a != []
    ensures WithScore(a, a[0].score) == [a[0]] + WithScore(a[1..], a[0].score)
  {
  }

  /** Two sequences whose first entries have the same score start with the
      same entry when they agree on every WithScore. */
  lemma HeadsAgree(a: seq<Scored>, b: seq<Scored>)
    requires a != [] && b != [] && a[0].score == b[0].score
    requires forall v :: WithScore(a, v) == WithScore(b, v)
    ensures a[0] == b[0]
  {
    var v := a[0].score;
    WithScoreHead(a);
    WithScoreHead(b);
    assert WithScore(a, v)[0] == WithScore(b, v)[0];
  }

  /** The three properties of SortByScore determine the result: any order of
      the same entries that is non-increasing and keeps entries of equal
      score in their original order is the one SortByScore gives. */
  lemma {:induction false} StableSortUnique(a: seq<Scored>, b: seq<Scored>)
    requires multiset(a) == multiset(b)
    requires NonIncreasing(a) && NonIncreasing(b)
    requires forall v :: WithScore(a, v) == WithScore(b, v)
    ensures a == b
    decreases |a|
  {
    assert |a| == |multiset(a)| == |multiset(b)| == |b|;
    if a != [] {
      assert a[0] in multiset(b) && b[0] in multiset(a);
      FirstIsMax(a, b[0]);
      FirstIsMax(b, a[0]);
      HeadsAgree(a, b);
      MultisetTail(a);
      MultisetTail(b);
      TailsAgree(a, b);
      SortedTail(a);
      SortedTail(b);
      StableSortUnique(a[1..], b[1..]);
    }
  }

  /** SortByScore(s) is the one stable descending order of `s`. */
  lemma SortByScoreIsStableSort(s: seq<Scored>, r: seq<Scored>)
    requires multiset(r) == multiset(s) && NonIncreasing(r)
    requires forall v :: WithScore(r, v) == WithScore(s, v)
    ensures r == SortByScore(s)
  {
    SortByScoreSound(s);
    StableSortUnique(r, SortByScore(s));
  }

  /** sorted(...)[:k] */
  function TopK(s: seq<Scored>, k: nat): (kept: seq<Scored>)
    ensures |kept| == if k < |s| then k else |s|
  {
    var sorted := SortByScore(s);
    sorted[..if k < |sorted| then k else |sorted|]
  }

  lemma {:induction false} WithScorePrefix(s: seq<Scored>, m: nat, v: real)
    requires m <= |s|
    ensures WithScore(s, v) == WithScore(s[..m], v) + WithScore(s[m..], v)
  {
    if m > 0 {
      assert s[..m][1..] == s[1..][..m - 1];
      assert s[m..] == s[1..][m - 1..];
      WithScorePrefix(s[1..], m - 1, v);
    } else {
      assert s[..m] == [] && s[m..] == s;
    }
  }

  /** In a non-increasing sequence, nothing before position m scores
      below anything from m on. */
  lemma SortedSplit(t: seq<Scored>, m: nat)
    requires m <= |t| && NonIncreasing(t)
    ensures forall x, y :: x in t[..m] && y in t[m..] ==> x.score >= y.score
  {
    forall x, y | x in t[..m] && y in t[m..] ensures x.score >= y.score {
      var i :| 0 <= i < m && t[..m][i] == x;
      var j :| 0 <= j < |t| - m && t[m..][j] == y;
      assert t[i] == x && t[m + j] == y;
    }
  }

  lemma SortedPrefix(t: seq<Scored>, m: nat)
    requires m <= |t| && NonIncreasing(t)
    ensures NonIncreasing(t[..m])
  {
    forall i, j | 0 <= i < j < m ensures t[..m][i].score >= t[..m][j].score {
      assert t[..m][i] == t[i] && t[..m][j] == t[j];
    }
  }

  lemma MultisetSplit(t: seq<Scored>, m: nat)
    requires m <= |t|
    ensures multiset(t) == multiset(t[..m]) + multiset(t[m..])
  {
    assert t == t[..m] + t[m..];
  }

  /** What the kept entries are: min(k, |s|) entries of `s` (as a
      multiset), in non-increasing score order, none scored below an entry
      left out. */
  lemma TopKRanked(s: seq<Scored>, k: nat)
    ensures var r := TopK(s, k);
            && |r| == (if k < |s| then k else |s|)
            && NonIncreasing(r)
            && multiset(r) <= multiset(s)
            && (forall x, y :: x in r && y in multiset(s) - multiset(r) ==> x.score >= y.score)
  {
    var sorted := SortByScore(s);
    SortByScoreSound(s);
    assert |sorted| == |s| by {
      assert |sorted| == |multiset(sorted)| && |s| == |multiset(s)|;
    }
    var m := if k < |sorted| then k else |sorted|;
    var r := sorted[..m];
    assert r == TopK(s, k);
    MultisetSplit(sorted, m);
    assert multiset(s) - multiset(r) == multiset(sorted[m..]);
    SortedSplit(sorted, m);
    SortedPrefix(sorted, m);
    forall x, y | x in r && y in multiset(s) - multiset(r) ensures x.score >= y.score {
      assert y in sorted[m..];
    }
  }

  /** Among the kept entries, those of any one score are the first ones of
      that score in `s`, in their order in `s`. */
  lemma TopKStable(s: seq<Scored>, k: nat, v: real)
    ensures WithScore(TopK(s, k), v) <= WithScore(s, v)
  {
    var sorted := SortByScore(s);
    SortByScoreSound(s);
    var m := if k < |sorted| then k else |sorted|;
    WithScorePrefix(sorted, m, v);
  }

  /** The context string: the kept chunks joined by a blank line, or nothing
      when the query is empty or the store holds no record (then the query
      is not embedded and no completion is requested). */
  function Answer(query: string, records: seq<Record>, embed: string -> Vector,
                  similarity: (Vector, Vector) -> real, k: nat): (context: Option<string>)
    ensures context.Some? <==> query != "" && records != []
  {
    if query == "" || records == [] then None
    else
      var kept := TopK(ScoreAll(records, embed(query), similarity), k);
      Some(Join(seq(|kept|, i requires 0 <= i < |kept| => kept[i].chunk), Separator))
  }

  /** A context joins min(k, |records|) chunks, each a chunk of the store. */
  lemma AnswerShape(query: string, records: seq<Record>, embed: string -> Vector,
                    similarity: (Vector, Vector) -> real, k: nat)
    ensures Answer(query, records, embed, similarity, k).Some? ==>
              var kept := TopK(ScoreAll(records, embed(query), similarity), k);
              |kept| == (if k < |records| then k else |records|)
              && forall i :: 0 <= i < |kept| ==> exists j :: 0 <= j < |records| && records[j].chunk == kept[i].chunk
  {
    if query != "" && records != [] {
      var scored := ScoreAll(records, embed(query), similarity);
      TopKRanked(scored, k);
      var kept := TopK(scored, k);
      forall i | 0 <= i < |kept| ensures exists j :: 0 <= j < |records| && records[j].chunk == kept[i].chunk {
        assert kept[i] in multiset(scored);
        var j :| 0 <= j < |scored| && scored[j] == kept[i];
        assert records[j].chunk == kept[i].chunk;
      }
    }
  }
}
