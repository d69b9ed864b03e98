/** Fuzzy command matching (apps/web-ui/src/commands/registry.ts). Queries are trimmed and
    lower-cased already, and each command is its lower-cased haystack. */
module Fuzzy {
  import opened Wrappers

  // --------------------------------------------------------------- searching

  /** `indexOf` for one character. */
  function FindChar(hay: string, c: char, from: nat): (r: Option<nat>)
    requires from <= |hay|
    ensures r.Some? ==> from <= r.value < |hay| && hay[r.value] == c && forall k | from <= k < r.value :: hay[k] != c
    ensures r.None? ==> forall k | from <= k < |hay| :: hay[k] != c
    decreases |hay| - from
  {
    if from == |hay| then None else if hay[from] == c then Some(from) else FindChar(hay, c, from + 1)
  }

  predicate OccursAt(hay: string, q: string, k: nat) {
    k + |q| <= |hay| && hay[k..k + |q|] == q
  }

  /** `indexOf` for a string. */
  function FindText(hay: string, q: string, from: nat): (r: Option<nat>)
    requires from <= |hay|
    ensures r.Some? ==> r.value >= from && OccursAt(hay, q, r.value) && forall k: nat | from <= k < r.value :: !OccursAt(hay, q, k)
    ensures r.None? ==> forall k: nat | from <= k :: !OccursAt(hay, q, k)
    decreases |hay| - from
  {
    if OccursAt(hay, q, from) then Some(from) else if from == |hay| then None else FindText(hay, q, from + 1)
  }

  predicate Contains(hay: string, q: string) {
    FindText(hay, q, 0).Some?
  }

  /** From position `qi` on, the query is a subsequence of the haystack from `hi` on. */
  predicate SubFrom(q: string, qi: nat, hay: string, hi: nat)
    requires qi <= |q| && hi <= |hay|
    decreases |hay| - hi
  {
    qi == |q| || (hi < |hay| && ((q[qi] == hay[hi] && SubFrom(q, qi + 1, hay, hi + 1)) || SubFrom(q, qi, hay, hi + 1)))
  }

  // ----------------------------------------------------------------- scoring

  /** What one matched character adds to the score. */
  function Gain(hay: string, found: nat, hi: nat, run: nat): int
    requires hi <= found < |hay|
  {
    (if found == hi then -(2 + (run + 1)) else found - hi)
    + (if found == 0 || hay[found - 1] == ' ' then -3 else 0)
  }

  /** The fuzzy tier from query position `qi` on. */
  function Fuzz(hay: string, q: string, qi: nat, hi: nat, run: nat, score: int): Option<int>
    requires qi <= |q| && hi <= |hay|
    decreases |q| - qi
  {
    if qi == |q| then Some(score)
    else
      match FindChar(hay, q[qi], hi)
      case None => None
      case Some(found) => Fuzz(hay, q, qi + 1, found + 1, if found == hi then run + 1 else 0, score + Gain(hay, found, hi, run))
  }

  /** `fuzzyScore`; lower is better. */
  function Score(hay: string, q: string): Option<int> {
    if q == "" then Some(0)
    else
      match FindText(hay, q, 0)
      case Some(k) => Some(k as int - 1000)
      case None => Fuzz(hay, q, 0, 0, 0, 1000)
  }

  method FuzzyScore(hay: string, q: string) returns (result: Option<int>)
    ensures result == Score(hay, q)
  {
    if q == "" {
      return Some(0);
    }
    var text := FindText(hay, q, 0);
    if text.Some? {
      var start: int := text.value;
      return Some(start - 1000);
    }
    var score: int, hi: nat, run: nat := 1000, 0, 0;
    for qi := 0 to |q|
      invariant hi <= |hay|
      invariant Fuzz(hay, q, 0, 0, 0, 1000) == Fuzz(hay, q, qi, hi, run, score)
    {
      var found := FindChar(hay, q[qi], hi);
      if found.None? {
        return None;
      }
      var gain := Gain(hay, found.value, hi, run);
      run := if found.value == hi then run + 1 else 0;
      score := score + gain;
      hi := found.value + 1;
    }
    result := Some(score);
  }

  // ------------------------------------------------------------ completeness

  lemma {:induction false} SkipOne(q: string, qi: nat, hay: string, hi: nat)
    requires qi < |q| && hi <= |hay| && SubFrom(q, qi, hay, hi)
    ensures SubFrom(q, qi + 1, hay, hi)
    decreases |hay| - hi
  {
    if SubFrom(q, qi, hay, hi + 1) {
      SkipOne(q, qi, hay, hi + 1);
    }
  }

  lemma {:induction false} StartEarlier(q: string, qi: nat, hay: string, hi: nat, later: nat)
    requires qi <= |q| && hi <= later <= |hay| && SubFrom(q, qi, hay, later)
    ensures SubFrom(q, qi, hay, hi)
    decreases later - hi
  {
    if hi < later {
      StartEarlier(q, qi, hay, hi + 1, later);
    }
  }

  /** Matching the next character as early as possible loses nothing. */
  lemma {:induction false} GreedyIsComplete(q: string, qi: nat, hay: string, hi: nat)
    requires qi < |q| && hi <= |hay|
    ensures var found := FindChar(hay, q[qi], hi);
            SubFrom(q, qi, hay, hi) <==> found.Some? && SubFrom(q, qi + 1, hay, found.value + 1)
    decreases |hay| - hi
  {
    if hi < |hay| {
      if hay[hi] == q[qi] {
        if SubFrom(q, qi, hay, hi + 1) {
          SkipOne(q, qi, hay, hi + 1);
        }
      } else {
        GreedyIsComplete(q, qi, hay, hi + 1);
      }
    }
  }

  lemma {:induction false} FuzzIsSubsequence(hay: string, q: string, qi: nat, hi: nat, run: nat, score: int)
    requires qi <= |q| && hi <= |hay|
    ensures Fuzz(hay, q, qi, hi, run, score).Some? <==> SubFrom(q, qi, hay, hi)
    decreases |q| - qi
  {
    if qi < |q| {
      GreedyIsComplete(q, qi, hay, hi);
      var found := FindChar(hay, q[qi], hi);
      if found.Some? {
        FuzzIsSubsequence(hay, q, qi + 1, found.value + 1, if found.value == hi then run + 1 else 0,
                          score + Gain(hay, found.value, hi, run));
      }
    }
  }

  lemma {:induction false} OccurrenceIsSubsequence(hay: string, q: string, k: nat, qi: nat)
    requires OccursAt(hay, q, k) && qi <= |q|
    ensures SubFrom(q, qi, hay, k + qi)
    decreases |q| - qi
  {
    if qi < |q| {
      assert hay[k..k + |q|][qi] == hay[k + qi];
      OccurrenceIsSubsequence(hay, q, k, qi + 1);
    }
  }

  /** A score is given exactly when the query is a subsequence of the haystack. */
  lemma ScoreIsSubsequence(hay: string, q: string)
    ensures Score(hay, q).Some? <==> SubFrom(q, 0, hay, 0)
  {
    var text := FindText(hay, q, 0);
    if text.Some? {
      OccurrenceIsSubsequence(hay, q, text.value, 0);
      StartEarlier(q, 0, hay, 0, text.value);
    }
    FuzzIsSubsequence(hay, q, 0, 0, 0, 1000);
  }

  // ------------------------------------------------------------------- tiers

  /** The most a row of characters can take off the score, from run length `a` up to `b`. */
  function Loss(a: nat, b: nat): nat
    decreases b - a
  {
    if a >= b then 0 else 6 + a + Loss(a + 1, b)
  }

  lemma {:induction false} LossIs(a: nat, b: nat)
    requires a <= b
    ensures 2 * Loss(a, b) == (b - a) * (11 + a + b)
    decreases b - a
  {
    if a < b {
      LossIs(a + 1, b);
      assert (b - a) * (11 + a + b) == (b - a - 1) * (11 + (a + 1) + b) + 2 * (6 + a);
    }
  }

  lemma {:induction false} LongerRunsLoseMore(a: nat, c: nat, n: nat)
    requires a <= c
    ensures Loss(a, a + n) <= Loss(c, c + n)
    decreases n
  {
    if n > 0 {
      LongerRunsLoseMore(a + 1, c + 1, n - 1);
    }
  }

  lemma {:induction false} FuzzAtLeast(hay: string, q: string, qi: nat, hi: nat, run: nat, score: int)
    requires qi <= |q| && hi <= |hay|
    ensures var r := Fuzz(hay, q, qi, hi, run, score);
            r.Some? ==> r.value >= score - Loss(run, run + (|q| - qi))
    decreases |q| - qi
  {
    if qi < |q| {
      var found := FindChar(hay, q[qi], hi);
      if found.Some? {
        var run2 := if found.value == hi then run + 1 else 0;
        FuzzAtLeast(hay, q, qi + 1, found.value + 1, run2, score + Gain(hay, found.value, hi, run));
        LongerRunsLoseMore(run2, run + 1, |q| - qi - 1);
      }
    }
  }

  /** Matched from the start without a break so far: since the haystack does not begin with the
      query, a break is still to come and costs nothing but a word boundary. */
  lemma {:induction false} BreakToCome(hay: string, q: string, qi: nat, score: int)
    requires qi < |q| && qi <= |hay| && hay[..qi] == q[..qi] && !OccursAt(hay, q, 0)
    ensures var r := Fuzz(hay, q, qi, qi, qi, score);
            r.Some? ==> r.value >= score - Loss(qi, |q| - 1) - 2
    decreases |q| - qi
  {
    var found := FindChar(hay, q[qi], qi);
    if found.Some? {
      var left := |q| - qi - 1;
      var gained := score + Gain(hay, found.value, qi, qi);
      if found.value == qi {
        assert hay[..qi + 1] == hay[..qi] + [hay[qi]] && q[..qi + 1] == q[..qi] + [q[qi]];
        if left > 0 {
          BreakToCome(hay, q, qi + 1, gained);
        }
      } else {
        FuzzAtLeast(hay, q, qi + 1, found.value + 1, 0, gained);
        LongerRunsLoseMore(0, qi, left);
      }
    }
  }

  /** The tiers: a match of the whole text scores below zero exactly when it starts before
      position 1000, and for queries of at most 40 characters no other match scores below zero. */
  lemma Tiers(hay: string, q: string)
    requires q != ""
    ensures Contains(hay, q) ==> (Score(hay, q).value < 0 <==> FindText(hay, q, 0).value < 1000)
    ensures !Contains(hay, q) && |q| <= 40 && Score(hay, q).Some? ==> Score(hay, q).value >= 0
  {
    if !Contains(hay, q) {
      assert hay[..0] == q[..0];
      BreakToCome(hay, q, 0, 1000);
      LossIs(0, |q| - 1);
      if |q| <= 40 {
        ProductAtMost(|q| - 1, 39, 10 + |q|, 50);
      }
    }
  }

  /** A query of `n` characters, mostly spaces, and a haystack that nearly contains it. */
  function LongQuery(n: nat): (q: string)
    requires n >= 2
    ensures |q| == n
  {
    "a" + seq(n - 2, _ => ' ') + "b"
  }

  function LongHay(n: nat): (hay: string)
    requires n >= 2
    ensures |hay| == n + 1
  {
    "a" + seq(n - 2, _ => ' ') + "xb"
  }

  lemma {:induction false} SpacesRun(n: nat, qi: nat, score: int)
    requires 2 <= qi <= n - 1
    ensures Fuzz(LongHay(n), LongQuery(n), qi, qi, qi, score) == Some(score - Loss(qi, n - 1) + 1)
    decreases n - qi
  {
    var q, hay := LongQuery(n), LongHay(n);
    if qi < n - 1 {
      assert q[qi] == ' ' && hay[qi] == ' ' && hay[qi - 1] == ' ';
      assert FindChar(hay, ' ', qi) == Some(qi);
      SpacesRun(n, qi + 1, score - (6 + qi));
    } else {
      assert q[qi] == 'b' && hay[qi] == 'x' && hay[qi + 1] == 'b';
      assert FindChar(hay, 'b', qi) == Some(qi + 1);
      assert Fuzz(hay, q, n, n + 1, 0, score + 1) == Some(score + 1);
    }
  }

  lemma LongHayMisses(n: nat)
    requires n >= 3
    ensures !Contains(LongHay(n), LongQuery(n))
  {
    var q, hay := LongQuery(n), LongHay(n);
    assert !OccursAt(hay, q, 0) by {
      assert hay[0..n][n - 1] == 'x' && q[n - 1] == 'b';
    }
    assert !OccursAt(hay, q, 1) by {
      assert hay[1..n + 1][0] == ' ' && q[0] == 'a';
    }
  }

  /** From 41 characters on a match that is not of the whole text can score below zero. */
  lemma LongQueryFallsIn(n: nat)
    requires n >= 41
    ensures var q, hay := LongQuery(n), LongHay(n);
            |q| == n && !Contains(hay, q) && Score(hay, q).Some? && Score(hay, q).value < 0
  {
    var q, hay := LongQuery(n), LongHay(n);
    LongHayMisses(n);
    SpacesRun(n, 2, 990);
    LossIs(2, n - 1);
    ProductAtMost(38, n - 3, 53, 12 + n);
    assert q[0] == 'a' && hay[0] == 'a' && q[1] == ' ' && hay[1] == ' ';
    assert FindChar(hay, 'a', 0) == Some(0) && FindChar(hay, ' ', 1) == Some(1);
    assert Fuzz(hay, q, 1, 1, 1, 994) == Fuzz(hay, q, 2, 2, 2, 990);
    assert Fuzz(hay, q, 0, 0, 0, 1000) == Fuzz(hay, q, 1, 1, 1, 994);
  }

  /** No query of `n` characters makes a match that is not of the whole text score below zero. */
  ghost predicate TierKept(n: nat) {
    forall hay: string, q: string | |q| == n && !Contains(hay, q) && Score(hay, q).Some? :: Score(hay, q).value >= 0
  }

  /** The fuzzy tier stays above zero exactly for queries of at most 40 characters. */
  lemma LengthBoundIsExact(n: nat)
    ensures TierKept(n) <==> n <= 40
  {
    if n <= 40 {
      forall hay: string, q: string | |q| == n && !Contains(hay, q) && Score(hay, q).Some? ensures Score(hay, q).value >= 0 {
        if q != "" {
          Tiers(hay, q);
        }
      }
    } else {
      LongQueryFallsIn(n);
    }
  }

  lemma ProductAtMost(a: nat, b: nat, c: nat, d: nat)
    requires a <= b && c <= d
    ensures a * c <= b * d
  {
  }

  /** Past position 1000 a text match falls out of its tier. */
  lemma LateMatchFallsOut(q: string)
    requires |q| > 0 && 'x' !in q
    ensures var hay := seq(1000, _ => 'x') + q;
            Contains(hay, q) && Score(hay, q) == Some(0)
  {
    var hay := seq(1000, _ => 'x') + q;
    assert hay[1000..1000 + |q|] == q;
    assert OccursAt(hay, q, 1000);
    forall k: nat | k < 1000 ensures !OccursAt(hay, q, k) {
      assert hay[k] == 'x' != q[0];
      assert k + |q| <= |hay| ==> hay[k..k + |q|][0] == hay[k];
    }
  }

  // --------------------------------------------------------------- filtering

  datatype Entry = Entry(index: nat, score: int)

  predicate Before(a: Entry, b: Entry) {
    a.score < b.score || (a.score == b.score && a.index < b.index)
  }

  /** The commands with a score, in registry order. */
  function Scored(hays: seq<string>, q: string): seq<Entry> {
    if hays == [] then []
    else
      var n := |hays| - 1;
      var s := Score(hays[n], q);
      Scored(hays[..n], q) + if s.Some? then [Entry(n, s.value)] else []
  }

  function Insert(sorted: seq<Entry>, e: Entry): seq<Entry> {
    if sorted == [] then [e] else if Before(e, sorted[0]) then [e] + sorted else [sorted[0]] + Insert(sorted[1..], e)
  }

  function Sort(entries: seq<Entry>): seq<Entry> {
    if entries == [] then [] else Insert(Sort(entries[..|entries| - 1]), entries[|entries| - 1])
  }

  function Negative(entries: seq<Entry>): seq<Entry> {
    if entries == [] then [] else (if entries[0].score < 0 then [entries[0]] else []) + Negative(entries[1..])
  }

  function Indices(entries: seq<Entry>): seq<nat> {
    seq(|entries|, i requires 0 <= i < |entries| => entries[i].index)
  }

  predicate AnyNegative(entries: seq<Entry>) {
    exists i :: 0 <= i < |entries| && entries[i].score < 0
  }

  /** The scored commands that are shown, in order. */
  function Shown(hays: seq<string>, q: string): seq<Entry> {
    var scored := Sort(Scored(hays, q));
    if AnyNegative(scored) then Negative(scored) else scored
  }

  /** `filterCommands`: the indices of the commands shown. */
  function Filtered(hays: seq<string>, q: string): seq<nat> {
    if q == "" then seq(|hays|, i requires 0 <= i < |hays| => i) else Indices(Shown(hays, q))
  }

  // ----------------------------------------------------- what filtering shows

  ghost predicate Sorted(entries: seq<Entry>) {
    forall i, j | 0 <= i < j < |entries| :: !Before(entries[j], entries[i])
  }

  /** By score, and by position in the registry where scores are equal. */
  ghost predicate InDisplayOrder(entries: seq<Entry>) {
    forall i, j | 0 <= i < j < |entries| ::
      entries[i].score < entries[j].score || (entries[i].score == entries[j].score && entries[i].index <= entries[j].index)
  }

  lemma DisplayOrder(entries: seq<Entry>)
    requires Sorted(entries)
    ensures InDisplayOrder(entries)
  {
    forall i, j | 0 <= i < j < |entries|
      ensures entries[i].score < entries[j].score || (entries[i].score == entries[j].score && entries[i].index <= entries[j].index)
    {
      assert !Before(entries[j], entries[i]);
    }
  }

  lemma {:induction false} InsertMembers(sorted: seq<Entry>, e: Entry)
    ensures multiset(Insert(sorted, e)) == multiset(sorted) + multiset{e}
  {
    if sorted != [] && !Before(e, sorted[0]) {
      InsertMembers(sorted[1..], e);
      assert sorted == [sorted[0]] + sorted[1..];
    } else {
      assert multiset([e] + sorted) == multiset{e} + multiset(sorted);
    }
  }

  lemma {:induction false} InsertSorts(sorted: seq<Entry>, e: Entry)
    requires Sorted(sorted)
    ensures Sorted(Insert(sorted, e))
  {
    hide Before;
    if sorted != [] {
      var tail := sorted[1..];
      if Before(e, sorted[0]) {
        BeforeAll(sorted, e);
      } else {
        InsertSorts(tail, e);
        InsertMembers(tail, e);
        forall x | x in Insert(tail, e) ensures !Before(x, sorted[0]) {
          assert x in multiset(Insert(tail, e));
        }
      }
    }
  }

  lemma BeforeAll(sorted: seq<Entry>, e: Entry)
    requires Sorted(sorted) && sorted != [] && Before(e, sorted[0])
    ensures forall x | x in sorted :: !Before(x, e)
  {
  }

  lemma {:induction false} SortFacts(entries: seq<Entry>)
    ensures Sorted(Sort(entries)) && multiset(Sort(entries)) == multiset(entries)
  {
    if entries != [] {
      var n := |entries| - 1;
      SortFacts(entries[..n]);
      InsertMembers(Sort(entries[..n]), entries[n]);
      InsertSorts(Sort(entries[..n]), entries[n]);
      assert entries == entries[..n] + [entries[n]];
    }
  }

  lemma {:induction false} ScoredFacts(hays: seq<string>, q: string, e: Entry)
    ensures e in Scored(hays, q) <==> e.index < |hays| && Score(hays[e.index], q) == Some(e.score)
  {
    if hays != [] {
      ScoredFacts(hays[..|hays| - 1], q, e);
    }
  }

  lemma {:induction false} NegativeFacts(entries: seq<Entry>)
    requires Sorted(entries)
    ensures Sorted(Negative(entries)) && forall e :: e in Negative(entries) <==> e in entries && e.score < 0
  {
    if entries != [] {
      NegativeFacts(entries[1..]);
      assert entries == [entries[0]] + entries[1..];
    }
  }

  /** A command of the registry that has some score below zero. */
  ghost predicate NegativeCommand(hays: seq<string>, q: string, i: nat) {
    i < |hays| && Score(hays[i], q).Some? && Score(hays[i], q).value < 0
  }

  /** The shown commands are in order, and are those scored below zero if there are any, all those scored otherwise. */
  lemma ShownFacts(hays: seq<string>, q: string, e: Entry)
    ensures InDisplayOrder(Shown(hays, q))
    ensures e in Shown(hays, q) <==>
              e.index < |hays| && Score(hays[e.index], q) == Some(e.score)
              && ((exists i: nat :: NegativeCommand(hays, q, i)) ==> e.score < 0)
  {
    var scored := Scored(hays, q);
    var sorted := Sort(scored);
    SortFacts(scored);
    NegativeFacts(sorted);
    DisplayOrder(Shown(hays, q));
    SameMembers(sorted, scored);
    ScoredFacts(hays, q, e);
    if AnyNegative(sorted) {
      var k :| 0 <= k < |sorted| && sorted[k].score < 0;
      assert sorted[k] in sorted;
      ScoredFacts(hays, q, sorted[k]);
      assert NegativeCommand(hays, q, sorted[k].index);
    } else if i: nat :| NegativeCommand(hays, q, i) {
      var hit := Entry(i, Score(hays[i], q).value);
      ScoredFacts(hays, q, hit);
      assert hit in sorted;
    }
  }

  lemma SameMembers(a: seq<Entry>, b: seq<Entry>)
    requires multiset(a) == multiset(b)
    ensures forall e :: e in a <==> e in b
  {
    forall e ensures e in a <==> e in b {
      assert e in a <==> e in multiset(a);
      assert e in b <==> e in multiset(b);
    }
  }

  /** An empty query shows every command, in the order of the registry. */
  lemma EmptyQueryShowsAll(hays: seq<string>)
    ensures |Filtered(hays, "")| == |hays| && forall i | 0 <= i < |hays| :: Filtered(hays, "")[i] == i
    ensures forall hay :: Score(hay, "") == Some(0)
  {
  }

  lemma {:induction false} ScoredAscends(hays: seq<string>, q: string)
    ensures forall i, j | 0 <= i < j < |Scored(hays, q)| :: Scored(hays, q)[i].index < Scored(hays, q)[j].index
    ensures forall i | 0 <= i < |Scored(hays, q)| :: Scored(hays, q)[i].index < |hays|
  {
    if hays != [] {
      ScoredAscends(hays[..|hays| - 1], q);
    }
  }

  ghost predicate DistinctIndices(entries: seq<Entry>) {
    forall i, j | 0 <= i < j < |entries| :: entries[i].index != entries[j].index
  }

  lemma {:induction false} InsertDistinct(sorted: seq<Entry>, e: Entry)
    requires DistinctIndices(sorted) && forall i | 0 <= i < |sorted| :: sorted[i].index != e.index
    ensures DistinctIndices(Insert(sorted, e)) && forall x | x in Insert(sorted, e) :: x == e || x in sorted
  {
    hide Before;
    if sorted != [] && !Before(e, sorted[0]) {
      var tail := sorted[1..];
      InsertDistinct(tail, e);
      var rest := Insert(tail, e);
      forall i | 0 <= i < |rest| ensures rest[i].index != sorted[0].index {
        assert rest[i] in rest;
      }
    }
  }

  lemma {:induction false} SortDistinct(entries: seq<Entry>)
    requires forall i, j | 0 <= i < j < |entries| :: entries[i].index < entries[j].index
    ensures DistinctIndices(Sort(entries)) && forall x | x in Sort(entries) :: x in entries
  {
    if entries != [] {
      var n := |entries| - 1;
      SortDistinct(entries[..n]);
      var sorted := Sort(entries[..n]);
      forall i | 0 <= i < |sorted| ensures sorted[i].index != entries[n].index {
        assert sorted[i] in sorted && sorted[i] in entries[..n];
      }
      InsertDistinct(Sort(entries[..n]), entries[n]);
    }
  }

  lemma {:induction false} NegativeDistinct(entries: seq<Entry>)
    requires DistinctIndices(entries)
    ensures DistinctIndices(Negative(entries)) && forall x | x in Negative(entries) :: x in entries
  {
    if entries != [] {
      NegativeDistinct(entries[1..]);
      var rest := Negative(entries[1..]);
      forall i | 0 <= i < |rest| ensures rest[i].index != entries[0].index {
        assert rest[i] in rest && rest[i] in entries[1..];
      }
    }
  }

  /** No command is shown twice. */
  lemma FilteredOnce(hays: seq<string>, q: string)
    ensures NoDuplicates(Filtered(hays, q))
  {
    ScoredAscends(hays, q);
    SortDistinct(Scored(hays, q));
    NegativeDistinct(Sort(Scored(hays, q)));
  }

  /** Command `c` contains the query, from a position before 1000 or not. */
  predicate Has(hays: seq<string>, q: string, c: nat) {
    c < |hays| && Contains(hays[c], q)
  }

  predicate HasEarly(hays: seq<string>, q: string, c: nat) {
    Has(hays, q, c) && FindText(hays[c], q, 0).value < 1000
  }

  /** What the filter promises: the commands that contain the query and no others if there are
      any, otherwise all that have it as a subsequence. */
  ghost predicate ShowsRight(hays: seq<string>, q: string) {
    forall c: nat | c < |hays| ::
      c in Filtered(hays, q) <==>
        if exists i: nat :: Has(hays, q, i) then Contains(hays[c], q) else SubFrom(q, 0, hays[c], 0)
  }

  /** Which commands are shown: those scored below zero if there are any, else all those scored. */
  lemma FilteredIs(hays: seq<string>, q: string, c: nat)
    requires q != "" && c < |hays|
    ensures c in Filtered(hays, q) <==>
              Score(hays[c], q).Some? && ((exists i: nat :: NegativeCommand(hays, q, i)) ==> Score(hays[c], q).value < 0)
  {
    var shown := Shown(hays, q);
    if Score(hays[c], q).Some? {
      var e := Entry(c, Score(hays[c], q).value);
      ShownFacts(hays, q, e);
      if e in shown {
        var k :| 0 <= k < |shown| && shown[k] == e;
        assert Indices(shown)[k] == c;
      }
    }
    if c in Filtered(hays, q) {
      var k :| 0 <= k < |shown| && Indices(shown)[k] == c;
      ShownFacts(hays, q, shown[k]);
    }
  }

  /** Which commands are shown, for queries of at most 40 characters. */
  lemma FilterShows(hays: seq<string>, q: string, c: nat)
    requires q != "" && |q| <= 40 && c < |hays|
    ensures c in Filtered(hays, q) <==>
              if exists i: nat :: HasEarly(hays, q, i) then HasEarly(hays, q, c) else SubFrom(q, 0, hays[c], 0)
  {
    forall i: nat ensures NegativeCommand(hays, q, i) <==> HasEarly(hays, q, i) {
      if i < |hays| {
        Tiers(hays[i], q);
      }
    }
    ScoreIsSubsequence(hays[c], q);
    FilteredIs(hays, q, c);
  }

  /** No containing command starts late, or none starts early and every match is a containing one. */
  ghost predicate TiersDoNotMix(hays: seq<string>, q: string) {
    || (forall i: nat | Has(hays, q, i) :: HasEarly(hays, q, i))
    || ((forall i: nat :: !HasEarly(hays, q, i)) && forall i: nat | i < |hays| && SubFrom(q, 0, hays[i], 0) :: Has(hays, q, i))
  }

  /** For queries of at most 40 characters the filter keeps its promise exactly when late matches
      of the whole text do not meet other matches. */
  lemma ShowsRightExactlyWhen(hays: seq<string>, q: string)
    requires q != "" && |q| <= 40
    ensures ShowsRight(hays, q) <==> TiersDoNotMix(hays, q)
  {
    forall c: nat | c < |hays|
      ensures c in Filtered(hays, q) <==>
                if exists i: nat :: HasEarly(hays, q, i) then HasEarly(hays, q, c) else SubFrom(q, 0, hays[c], 0)
      ensures Has(hays, q, c) ==> SubFrom(q, 0, hays[c], 0)
    {
      FilterShows(hays, q, c);
      ScoreIsSubsequence(hays[c], q);
    }
    hide Filtered, Contains, FindText, SubFrom;
    if late: nat :| Has(hays, q, late) && !HasEarly(hays, q, late) {
      if early: nat :| HasEarly(hays, q, early) {
        assert late !in Filtered(hays, q);
      }
    }
  }

  /** Two commands that both contain the query, one from position 1000 on: it is not shown. */
  lemma LateMatchIsHidden(q: string)
    requires 0 < |q| <= 40 && 'x' !in q
    ensures var hays := [seq(1000, _ => 'x') + q, q];
            Contains(hays[0], q) && 0 !in Filtered(hays, q) && 1 in Filtered(hays, q)
  {
    var hays := [seq(1000, _ => 'x') + q, q];
    LateMatchFallsOut(q);
    assert OccursAt(q, q, 0);
    assert HasEarly(hays, q, 1);
    FilterShows(hays, q, 0);
    FilterShows(hays, q, 1);
    assert !HasEarly(hays, q, 0);
  }

  /** From 41 characters on, a command that does not contain the query can be shown beside one that does. */
  lemma LongQueryIntrudes(n: nat)
    requires n >= 41
    ensures var q, hays := LongQuery(n), [LongHay(n), LongQuery(n)];
            !Contains(hays[0], q) && Contains(hays[1], q) && 0 in Filtered(hays, q)
  {
    var q, hays := LongQuery(n), [LongHay(n), LongQuery(n)];
    LongQueryFallsIn(n);
    assert OccursAt(q, q, 0);
    FilteredIs(hays, q, 0);
  }
}
