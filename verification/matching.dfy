/** The lost/found match score and the shortlist of matches offered after a
    listing is published. Great-circle distance and date arithmetic are inputs:
    the score sees the distance in kilometres (or that it is not a number) and
    each listing's event time in milliseconds (or that it is an invalid date). */
module Matching {
  import opened Wrappers
  import opened Text
  import opened Sorting

  /** A time as `new Date(...)` sees it: milliseconds since the epoch, or an
      invalid date whose arithmetic yields `NaN`. */
  datatype When = At(ms: int) | InvalidDate

  /** The columns of a listing the score reads. */
  datatype Facts = Facts(category: string, occurredAt: When, title: string)

  const SixHoursMs: nat := 6 * 3600000

  /** The time part: 20 points, minus one per full six hours between the two events,
      never below zero. */
  function TimePoints(deltaMs: nat): (p: nat)
    ensures p <= 20
    ensures p == 20 <==> deltaMs < SixHoursMs
    ensures p == 0 <==> deltaMs >= 20 * SixHoursMs
  {
    var blocks := deltaMs / SixHoursMs;
    20 - (if blocks < 20 then blocks else 20)
  }

  /** The distance part: 30 within 300 m, 20 within 1 km, 10 within 3 km. A distance
      that is not a number (`None`) fails every comparison and scores nothing. */
  function DistancePoints(km: Option<real>): (p: nat)
    ensures p in {0, 10, 20, 30}
    ensures p > 0 <==> km.Some? && km.value <= 3.0
    ensures p == 30 <==> km.Some? && km.value <= 0.3
  {
    match km
    case None => 0
    case Some(d) => if d <= 0.3 then 30 else if d <= 1.0 then 20 else if d <= 3.0 then 10 else 0
  }

  /** The characters the tokenizer keeps: Latin and Cyrillic letters `a-z`, `а-я`
      and digits. The pattern's case-insensitivity adds nothing after lower-casing.
      `ё` lies outside `а-я` and therefore separates words. */
  predicate IsWordChar(c: char) {
    ('a' <= c <= 'z') || ('а' <= c <= 'я') || ('0' <= c <= '9')
  }

  predicate IsWord(w: string) {
    |w| > 0 && forall i | 0 <= i < |w| :: IsWordChar(w[i])
  }

  /** The maximal runs of word characters of `s`, in order. */
  function Words(s: string): (ws: seq<string>)
    ensures forall i | 0 <= i < |ws| :: IsWord(ws[i])
    ensures |s| > 0 && IsWordChar(s[0]) ==> |ws| > 0 && |ws[0]| > 0 && ws[0][0] == s[0]
    decreases |s|
  {
    if |s| == 0 then []
    else
      var rest := Words(s[1..]);
      if !IsWordChar(s[0]) then rest
      else if |s| > 1 && IsWordChar(s[1]) then [[s[0]] + rest[0]] + rest[1..]
      else [[s[0]]] + rest
  }

  /** `tokens(t)`: lower-case, split on runs of non-word characters, drop the empty
      pieces. */
  function Tokens(t: string): seq<string> {
    Words(Lower(t))
  }

  /** A run of word characters is one word. */
  lemma {:induction false} WordsOfWord(w: string)
    requires IsWord(w)
    ensures Words(w) == [w]
    decreases |w|
  {
    if |w| > 1 {
      assert IsWord(w[1..]);
      WordsOfWord(w[1..]);
      assert IsWordChar(w[0]) && IsWordChar(w[1]);
      var rest := Words(w[1..]);
      assert rest[0] == w[1..] && rest[1..] == [];
      assert [w[0]] + w[1..] == w;
    } else {
      assert w[1..] == [] && w == [w[0]];
    }
  }

  /** A separator splits: the words of `a + sep + b` are the words of `a` followed
      by the words of `b`. With `WordsOfWord` and `Words("") == []` this pins
      `Words` down as the maximal-run split. */
  lemma {:induction false} WordsAtSeparator(a: string, sep: char, b: string)
    requires !IsWordChar(sep)
    ensures Words(a + [sep] + b) == Words(a) + Words(b)
    decreases |a|
  {
    var s := a + [sep] + b;
    if |a| == 0 {
      assert s[1..] == b;
    } else {
      assert s[1..] == a[1..] + [sep] + b;
      WordsAtSeparator(a[1..], sep, b);
      if IsWordChar(a[0]) && |a| > 1 && IsWordChar(a[1]) {
        assert s[1] == a[1];
      } else if IsWordChar(a[0]) && |a| == 1 {
        assert s[1] == sep;
        assert a[1..] == [];
      } else if IsWordChar(a[0]) {
        assert s[1] == a[1];
      }
    }
  }

  /** `intersect(a, b)`: the elements of `b`, repetitions included, that occur in `a`. */
  function Intersect(a: seq<string>, b: seq<string>): (r: seq<string>)
    ensures forall x | x in b :: multiset(r)[x] == if x in a then multiset(b)[x] else 0
    ensures forall x | x in r :: x in a && x in b
  {
    var r := Filter(b, x => x in a);
    forall x | x in r ensures x in a && x in b {
      var i :| 0 <= i < |r| && r[i] == x;
      assert x in multiset(r);
    }
    r
  }

  /** The keyword part: five points per shared title word (counted on the found
      side, with repetition), at most 25. */
  function KeywordPoints(lostTitle: string, foundTitle: string): (p: nat)
    ensures p <= 25 && p % 5 == 0
  {
    var shared := |Intersect(Tokens(lostTitle), Tokens(foundTitle))|;
    if 5 * shared < 25 then 5 * shared else 25
  }

  /** `score(lost, found)`: 25 for the same category, plus the time, distance and
      keyword parts. An invalid date on either side makes the whole score `NaN`
      (`None`). */
  function Score(lost: Facts, found: Facts, km: Option<real>): (r: Option<int>)
    ensures r.Some? <==> lost.occurredAt.At? && found.occurredAt.At?
    ensures r.Some? ==> 0 <= r.value <= 100
    ensures r.Some? && lost.category != found.category ==> r.value <= 75
  {
    match (lost.occurredAt, found.occurredAt)
    case (At(a), At(b)) =>
      var delta := if a <= b then b - a else a - b;
      Some((if lost.category == found.category then 25 else 0)
        + TimePoints(delta) + DistancePoints(km) + KeywordPoints(lost.title, found.title))
    case _ => None
  }

  /** Moving the events further apart never raises the score. */
  lemma ScoreFallsWithTime(lost: Facts, found: Facts, found2: Facts, km: Option<real>)
    requires lost.occurredAt.At? && found.occurredAt.At? && found2.occurredAt.At?
    requires found2 == found.(occurredAt := found2.occurredAt)
    requires lost.occurredAt.ms <= found.occurredAt.ms <= found2.occurredAt.ms
    ensures Score(lost, found2, km).value <= Score(lost, found, km).value
  {
    TimePointsFall(found.occurredAt.ms - lost.occurredAt.ms, found2.occurredAt.ms - lost.occurredAt.ms);
  }

  lemma TimePointsFall(d1: nat, d2: nat)
    requires d1 <= d2
    ensures TimePoints(d2) <= TimePoints(d1)
  {
    assert d1 / SixHoursMs <= d2 / SixHoursMs;
  }

  /** Moving the listings further apart never raises the score. */
  lemma ScoreFallsWithDistance(lost: Facts, found: Facts, d1: real, d2: real)
    requires lost.occurredAt.At? && found.occurredAt.At?
    requires d1 <= d2
    ensures Score(lost, found, Some(d2)).value <= Score(lost, found, Some(d1)).value
  {
  }

  /** The score is not symmetric: a word repeated in the found title counts each
      time, a word repeated in the lost title once. */
  lemma ScoreIsAsymmetric()
    ensures Score(Facts("pet", At(0), Cat), Facts("pet", At(0), TwoCats), None)
         != Score(Facts("pet", At(0), TwoCats), Facts("pet", At(0), Cat), None)
  {
    CatPoints();
  }

  lemma CatPoints()
    ensures KeywordPoints(Cat, TwoCats) == 10 && KeywordPoints(TwoCats, Cat) == 5
  {
    CatTokens();
    IntersectCats();
  }

  lemma IntersectCats()
    ensures |Intersect([Cat], [Cat, Cat])| == 2 && |Intersect([Cat, Cat], [Cat])| == 1
  {
    var keep1 := x => x in [Cat];
    assert [Cat, Cat][1..] == [Cat];
    assert Filter([Cat, Cat], keep1) == [Cat] + Filter([Cat], keep1);
    var keep2 := x => x in [Cat, Cat];
    assert Filter([Cat], keep2) == [Cat] + Filter([], keep2);
  }

  const Cat := "кот"
  const TwoCats := "кот кот"

  lemma CatTokens()
    ensures Tokens(Cat) == [Cat] && Tokens(TwoCats) == [Cat, Cat]
  {
    assert Lower(Cat) == Cat;
    assert Lower(TwoCats) == TwoCats;
    WordsOfWord(Cat);
    assert TwoCats == Cat + [' '] + Cat;
    WordsAtSeparator(Cat, ' ', Cat);
  }

  /** `ё` is not a word character, so it splits a word in two. */
  lemma YoSplitsWords()
    ensures Tokens("ёж") == ["ж"]
  {
    assert Lower("ёж") == "ёж";
    assert "ёж" == "" + ['ё'] + "ж";
    WordsAtSeparator("", 'ё', "ж");
    WordsOfWord("ж");
  }

  /** One row the match query returned, with the score it was given (`None` when
      the score came out as `NaN`). */
  datatype Candidate = Candidate(id: nat, title: string, score: Option<int>)

  function Finite(c: Candidate): bool { c.score.Some? }

  function Strong(c: Candidate): bool { c.score.Some? && c.score.value >= 50 }

  function Descending(c: Candidate): int { -c.score.GetOr(0) }

  /** The shortlist step of `findPotentialMatches`: keep finite scores, sort by
      descending score, keep scores of at least 50, take three. */
  function Shortlist(rows: seq<Candidate>): (r: seq<Candidate>)
    ensures |r| <= 3
    ensures forall i | 0 <= i < |r| :: Strong(r[i])
    ensures forall i, j | 0 <= i < j < |r| :: r[i].score.Some? && r[j].score.Some? && r[i].score.value >= r[j].score.value
    ensures multiset(r) <= multiset(rows)
    ensures |r| == if |Filter(rows, Strong)| < 3 then |Filter(rows, Strong)| else 3
  {
    ShortlistOrder(rows);
    ShortlistCount(rows);
    Take(StrongSorted(rows), 3)
  }

  lemma ShortlistOrder(rows: seq<Candidate>)
    ensures var r := Take(StrongSorted(rows), 3);
      (forall i | 0 <= i < |r| :: Strong(r[i]))
      && forall i, j | 0 <= i < j < |r| :: r[i].score.Some? && r[j].score.Some? && r[i].score.value >= r[j].score.value
  {
    var strong := StrongSorted(rows);
    var r := Take(strong, 3);
    assert forall i | 0 <= i < |r| :: r[i] == strong[i];
    TakeSorted(strong, 3, Descending);
    DescendingScores(r);
  }

  lemma ShortlistCount(rows: seq<Candidate>)
    ensures var r := Take(StrongSorted(rows), 3);
      multiset(r) <= multiset(rows)
      && |r| == if |Filter(rows, Strong)| < 3 then |Filter(rows, Strong)| else 3
  {
    var strong := StrongSorted(rows);
    StrongCount(rows);
    TakeFacts(strong, 3);
    assert |multiset(strong)| == |strong|;
    assert |multiset(Filter(rows, Strong))| == |Filter(rows, Strong)|;
  }

  /** The strong candidates in descending score order. */
  function StrongSorted(rows: seq<Candidate>): (r: seq<Candidate>)
    ensures SortedBy(r, Descending)
    ensures forall i | 0 <= i < |r| :: Strong(r[i])
  {
    var sorted := SortBy(Filter(rows, Finite), Descending);
    FilterKeepsOrder(sorted, Strong, Descending);
    Filter(sorted, Strong)
  }

  lemma DescendingScores(r: seq<Candidate>)
    requires SortedBy(r, Descending)
    requires forall i | 0 <= i < |r| :: Strong(r[i])
    ensures forall i, j | 0 <= i < j < |r| :: Strong(r[i]) && Strong(r[j]) && r[i].score.value >= r[j].score.value
  {
    forall i, j | 0 <= i < j < |r| ensures Strong(r[i]) && Strong(r[j]) && r[i].score.value >= r[j].score.value {
      assert Descending(r[i]) <= Descending(r[j]);
    }
  }

  lemma StrongCount(rows: seq<Candidate>)
    ensures multiset(StrongSorted(rows)) == multiset(Filter(rows, Strong))
  {
    var f := Filter(rows, Finite);
    FilterSameMultiset(SortBy(f, Descending), f, Strong);
    FilterNarrow(rows, Finite, Strong);
  }

  /** Nothing strong is passed over for something weaker: a candidate with a score
      of at least 50 that is left out scores no higher than any listed one. */
  lemma ShortlistIsTop(rows: seq<Candidate>, c: Candidate)
    requires c in rows && Strong(c) && c !in Shortlist(rows)
    ensures forall d | d in Shortlist(rows) :: d.score.value >= c.score.value
  {
    var strong := StrongSorted(rows);
    StrongCount(rows);
    assert c in Filter(rows, Strong);
    assert c in multiset(strong);
    TakeIsTop(strong, 3, Descending, c);
  }
}
