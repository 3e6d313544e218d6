/** The pure part of the chat route: score every cached embedding, sort by descending
    score, keep the top three, and turn them into a context string and a list of source
    titles. Scores are given values; how they are computed is not part of this module. */
module Retrieval {
  import opened Common

  /** An entry of the static knowledge base (`data/knowledge.json`); the title may be absent. */
  datatype Item = Item(title: Option<string>, text: string)

  /** An entry of `sims`: the position of an embedding and its score. */
  datatype Sim = Sim(idx: nat, score: real)

  /** What retrieval hands on: the context for the prompt and the titles shown as sources
      (an absent title is serialised as null). */
  datatype Retrieved = Retrieved(context: string, sources: seq<Option<string>>)

  /** How many entries `sims.slice(0, 3)` keeps. */
  const TopK: nat := 3

  /** The string the context blocks are joined with. */
  const Separator: string := "\n\n---\n\n"

  // ---------------------------------------------------------------------------
  // Scoring and sorting
  // ---------------------------------------------------------------------------

  /** `embeddings.map((e, i) => ({ idx: i, score }))`, given the scores. */
  function Indexed(scores: seq<real>): seq<Sim>
  {
    seq(|scores|, i requires 0 <= i < |scores| => Sim(i, scores[i]))
  }

  /** `x` is ordered before `y` in the sorted list: a higher score, or the same score and
      a smaller index (the sort is stable and its input is in index order). */
  predicate Before(x: Sim, y: Sim)
  {
    x.score > y.score || (x.score == y.score && x.idx < y.idx)
  }

  /** The order the sorted list is in. */
  predicate Ranked(s: seq<Sim>)
  {
    forall i, j :: 0 <= i < j < |s| ==> Before(s[i], s[j])
  }

  predicate IdxAscending(s: seq<Sim>)
  {
    forall i, j :: 0 <= i < j < |s| ==> s[i].idx < s[j].idx
  }

  /** Puts `x` into the sorted list `t` in front of the first entry that does not score
      strictly higher; ties keep `x` in front, which is what makes the sort stable. */
  function Insert(x: Sim, t: seq<Sim>): (r: seq<Sim>)
    ensures multiset(r) == multiset{x} + multiset(t)
  {
    if |t| == 0 || x.score >= t[0].score then [x] + t
    else
      assert t == [t[0]] + t[1..];
      [t[0]] + Insert(x, t[1..])
  }

  /** `.sort((a, b) => b.score - a.score)`: a stable sort by descending score, modelled as
      an insertion sort. Array.prototype.sort is required to be stable (section 23.1.3.30
      of ECMA-262, 2023 edition); RankedUnique shows that any sort with that order gives
      this same list. */
  function SortByScore(s: seq<Sim>): (r: seq<Sim>)
    ensures multiset(r) == multiset(s)
  {
    if |s| == 0 then []
    else
      assert s == [s[0]] + s[1..];
      Insert(s[0], SortByScore(s[1..]))
  }

  lemma InsertMember(x: Sim, t: seq<Sim>, y: Sim)
    requires y in Insert(x, t)
    ensures y == x || y in t
  {
    assert y in multiset(Insert(x, t));
  }

  /** Inserting an entry whose index is below every index of a ranked list keeps it ranked. */
  lemma {:induction false} InsertRanked(x: Sim, t: seq<Sim>)
    requires Ranked(t)
    requires forall k :: 0 <= k < |t| ==> x.idx < t[k].idx
    ensures Ranked(Insert(x, t))
  {
    if |t| == 0 || x.score >= t[0].score {
      var r := [x] + t;
      forall i, j | 0 <= i < j < |r| ensures Before(r[i], r[j]) {
        if i == 0 {
          if j > 1 {
            assert Before(t[0], t[j - 1]);
          }
        } else {
          assert Before(t[i - 1], t[j - 1]);
        }
      }
    } else {
      var rest := Insert(x, t[1..]);
      InsertRanked(x, t[1..]);
      var r := [t[0]] + rest;
      forall i, j | 0 <= i < j < |r| ensures Before(r[i], r[j]) {
        if i == 0 {
          InsertMember(x, t[1..], rest[j - 1]);
          if rest[j - 1] != x {
            var m :| 0 <= m < |t[1..]| && t[1..][m] == rest[j - 1];
            assert Before(t[0], t[m + 1]);
          }
        } else {
          assert Before(rest[i - 1], rest[j - 1]);
        }
      }
    }
  }

  /** Sorting a list given in index order yields a ranked list. */
  lemma {:induction false} SortRanked(s: seq<Sim>)
    requires IdxAscending(s)
    ensures Ranked(SortByScore(s))
  {
    if |s| > 0 {
      var t := SortByScore(s[1..]);
      SortRanked(s[1..]);
      forall k | 0 <= k < |t| ensures s[0].idx < t[k].idx {
        assert t[k] in multiset(s[1..]);
        var m :| 0 <= m < |s[1..]| && s[1..][m] == t[k];
        assert s[m + 1] == t[k];
      }
      InsertRanked(s[0], t);
    }
  }

  /** Two non-empty ranked lists with the same entries start with the same entry. */
  lemma RankedHead(a: seq<Sim>, b: seq<Sim>)
    requires Ranked(a) && Ranked(b) && |a| > 0 && |b| > 0
    requires multiset(a) == multiset(b)
    ensures a[0] == b[0]
  {
    assert a[0] in multiset(b) && b[0] in multiset(a);
    var p :| 0 <= p < |b| && b[p] == a[0];
    var q :| 0 <= q < |a| && a[q] == b[0];
    // An entry in front of b[p] would be ordered before a[0], and so would have to stand
    // in front of a[0] in a as well.
    assert p == 0;
  }

  lemma DropHead(a: seq<Sim>)
    requires |a| > 0
    ensures a == [a[0]] + a[1..]
    ensures multiset(a[1..]) == multiset(a) - multiset{a[0]}
    ensures Ranked(a) ==> Ranked(a[1..])
  {
    assert a == [a[0]] + a[1..];
  }

  /** Two ranked lists with the same entries are equal: the order fixes the result, so any
      stable descending sort of the indexed scores gives SortByScore's list. */
  lemma {:induction false} RankedUnique(a: seq<Sim>, b: seq<Sim>)
    requires Ranked(a) && Ranked(b)
    requires multiset(a) == multiset(b)
    ensures a == b
  {
    assert |a| == |multiset(a)| == |multiset(b)| == |b|;
    if |a| > 0 {
      RankedHead(a, b);
      DropHead(a);
      DropHead(b);
      assert multiset(a[1..]) == multiset(b[1..]);
      RankedUnique(a[1..], b[1..]);
    }
  }

  /** Every entry of a permutation of the indexed scores carries its own index's score. */
  lemma PermutedEntries(scores: seq<real>, sorted: seq<Sim>)
    requires multiset(sorted) == multiset(Indexed(scores))
    ensures |sorted| == |scores|
    ensures forall i :: 0 <= i < |sorted| ==>
      sorted[i].idx < |scores| && sorted[i].score == scores[sorted[i].idx]
    ensures forall k :: 0 <= k < |scores| ==> Sim(k, scores[k]) in sorted
  {
    var s := Indexed(scores);
    assert |sorted| == |multiset(sorted)| == |multiset(s)| == |s|;
    forall i | 0 <= i < |sorted|
      ensures sorted[i].idx < |scores| && sorted[i].score == scores[sorted[i].idx]
    {
      assert sorted[i] in multiset(s);
    }
    forall k | 0 <= k < |scores| ensures Sim(k, scores[k]) in sorted {
      assert s[k] in multiset(sorted);
    }
  }

  /** The sorted list: one entry per score, each carrying its own index and score, every
      index present once (so the indices are a permutation of 0..n-1), scores
      non-increasing, and equal scores in ascending index order. */
  lemma SortedIndexed(scores: seq<real>)
    ensures var sorted := SortByScore(Indexed(scores));
      && |sorted| == |scores|
      && Ranked(sorted)
      && (forall i :: 0 <= i < |sorted| ==>
            sorted[i].idx < |scores| && sorted[i].score == scores[sorted[i].idx])
      && (forall k :: 0 <= k < |scores| ==> Sim(k, scores[k]) in sorted)
      && (forall i, j :: 0 <= i < j < |sorted| ==>
            && sorted[i].idx != sorted[j].idx
            && sorted[i].score >= sorted[j].score
            && (sorted[i].score == sorted[j].score ==> sorted[i].idx < sorted[j].idx))
  {
    var sorted := SortByScore(Indexed(scores));
    SortRanked(Indexed(scores));
    PermutedEntries(scores, sorted);
    forall i, j | 0 <= i < j < |sorted| ensures sorted[i].idx != sorted[j].idx {
      assert Before(sorted[i], sorted[j]);
    }
  }

  // ---------------------------------------------------------------------------
  // Top three
  // ---------------------------------------------------------------------------

  /** `sims.slice(0, 3)` of the sorted indexed scores. */
  function Rank(scores: seq<real>): seq<Sim>
  {
    var sorted := SortByScore(Indexed(scores));
    sorted[..Min(TopK, |sorted|)]
  }

  /** In a ranked list, every entry of a prefix is ordered before every entry after it. */
  lemma PrefixBeforeRest(sorted: seq<Sim>, m: nat, x: Sim)
    requires Ranked(sorted) && m <= |sorted|
    requires x in sorted && x !in sorted[..m]
    ensures forall i :: 0 <= i < m ==> Before(sorted[i], x)
  {
    var p :| 0 <= p < |sorted| && sorted[p] == x;
    assert p >= m;
  }

  /** The top list is the first min(3, n) entries of the sorted list, empty for an empty
      knowledge base, and each of its entries is ordered before every entry left out. */
  lemma RankTop(scores: seq<real>)
    ensures var top := Rank(scores);
      && |top| == Min(TopK, |scores|)
      && top == SortByScore(Indexed(scores))[..|top|]
      && (forall i :: 0 <= i < |top| ==> top[i].idx < |scores| && top[i].score == scores[top[i].idx])
      && (forall i, k :: 0 <= i < |top| && 0 <= k < |scores| && Sim(k, scores[k]) !in top ==>
            Before(top[i], Sim(k, scores[k])))
  {
    var sorted := SortByScore(Indexed(scores));
    var top := Rank(scores);
    SortRanked(Indexed(scores));
    PermutedEntries(scores, sorted);
    forall i, k | 0 <= i < |top| && 0 <= k < |scores| && Sim(k, scores[k]) !in top
      ensures Before(top[i], Sim(k, scores[k]))
    {
      PrefixBeforeRest(sorted, |top|, Sim(k, scores[k]));
    }
  }

  // ---------------------------------------------------------------------------
  // Context and sources
  // ---------------------------------------------------------------------------

  /** A template literal shows an absent value as "undefined". */
  function Show(title: Option<string>): string
  {
    match title
    case Some(t) => t
    case None => "undefined"
  }

  /** `Title: ${kbItem.title}\nText: ${kbItem.text}` */
  function Block(item: Item): string
  {
    "Title: " + Show(item.title) + "\nText: " + item.text
  }

  /** Array.prototype.join: the first part, then separator and part for each further part. */
  function Join(parts: seq<string>, sep: string): string
  {
    if |parts| == 0 then ""
    else if |parts| == 1 then parts[0]
    else Join(parts[..|parts| - 1], sep) + sep + parts[|parts| - 1]
  }

  /** Each part with the separator written in front of it. */
  function Prefixed(parts: seq<string>, sep: string): seq<string>
  {
    seq(|parts|, i requires 0 <= i < |parts| => sep + parts[i])
  }

  /** `m` joined parts are the first part followed by `m - 1` copies of the separator,
      each in front of one further part, in order. */
  lemma {:induction false} JoinSeparators(parts: seq<string>, sep: string)
    requires |parts| > 0
    ensures Join(parts, sep) == parts[0] + Concat(Prefixed(parts[1..], sep))
    decreases |parts|
  {
    if |parts| > 1 {
      var init := parts[..|parts| - 1];
      var last := parts[|parts| - 1];
      JoinSeparators(init, sep);
      assert Prefixed(parts[1..], sep) == Prefixed(init[1..], sep) + [sep + last];
      ConcatAppend(Prefixed(init[1..], sep), sep + last);
    }
  }

  /** The joined string is as long as its parts plus `m - 1` separators. */
  lemma {:induction false} JoinLength(parts: seq<string>, sep: string)
    requires |parts| > 0
    ensures |Join(parts, sep)| == |Concat(parts)| + (|parts| - 1) * |sep|
    decreases |parts|
  {
    if |parts| > 1 {
      var init := parts[..|parts| - 1];
      var last := parts[|parts| - 1];
      JoinLength(init, sep);
      assert parts == init + [last];
      ConcatAppend(init, last);
      assert (|parts| - 1) * |sep| == (|init| - 1) * |sep| + |sep|;
    }
  }

  predicate InRange(top: seq<Sim>, items: seq<Item>)
  {
    forall i :: 0 <= i < |top| ==> top[i].idx < |items|
  }

  /** The blocks of the top entries, in rank order. */
  function Blocks(top: seq<Sim>, items: seq<Item>): seq<string>
    requires InRange(top, items)
  {
    seq(|top|, i requires 0 <= i < |top| => Block(items[top[i].idx]))
  }

  /** The context string. `kbItems[t.idx]` is undefined when the embedder returned more
      vectors than there are items, and reading `.title` of it throws (None). */
  function BuildContext(top: seq<Sim>, items: seq<Item>): Option<string>
  {
    if InRange(top, items) then Some(Join(Blocks(top, items), Separator)) else None
  }

  /** The context is the rank-ordered blocks with the separator between neighbours; no top
      entries give the empty string; it fails exactly when a top index has no item. */
  lemma ContextShape(top: seq<Sim>, items: seq<Item>)
    ensures BuildContext(top, items).Some? <==> InRange(top, items)
    ensures |top| == 0 ==> BuildContext(top, items) == Some("")
    ensures InRange(top, items) && |top| > 0 ==>
      && BuildContext(top, items).value
           == Block(items[top[0].idx]) + Concat(Prefixed(Blocks(top[1..], items), Separator))
      && |BuildContext(top, items).value|
           == |Concat(Blocks(top, items))| + (|top| - 1) * |Separator|
  {
    if InRange(top, items) && |top| > 0 {
      var bs := Blocks(top, items);
      JoinSeparators(bs, Separator);
      JoinLength(bs, Separator);
      assert bs[1..] == Blocks(top[1..], items);
    }
  }

  /** `top.map(t => kbItems[t.idx].title)` */
  function SourceTitles(top: seq<Sim>, items: seq<Item>): seq<Option<string>>
    requires InRange(top, items)
  {
    seq(|top|, i requires 0 <= i < |top| => items[top[i].idx].title)
  }

  /** Rank, build the context, list the sources. */
  function Retrieve(items: seq<Item>, scores: seq<real>): Option<Retrieved>
  {
    var top := Rank(scores);
    match BuildContext(top, items)
    case None => None
    case Some(context) => Some(Retrieved(context, SourceTitles(top, items)))
  }

  /** Retrieval fails only when a top index has no item, hence never when there are no more
      scores than items; on success the sources are parallel to the top list. */
  lemma RetrieveSpec(items: seq<Item>, scores: seq<real>)
    ensures var top := Rank(scores); var r := Retrieve(items, scores);
      && (r.Some? <==> InRange(top, items))
      && (|scores| <= |items| ==> r.Some?)
      && (r.Some? ==>
            && r.value.context == BuildContext(top, items).value
            && |r.value.sources| == |top| == Min(TopK, |scores|)
            && forall i :: 0 <= i < |top| ==> r.value.sources[i] == items[top[i].idx].title)
  {
    RankTop(scores);
  }
}
