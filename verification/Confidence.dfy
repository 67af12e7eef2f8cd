/** How well a candidate matches a query and the book as it is: a score of 0 to 100. */
module Confidence {
  import opened Text
  import opened Orders

  datatype Candidate = Candidate(source: Bytes, title: Bytes, authors: seq<Bytes>, narrators: seq<Bytes>,
                                 description: Bytes, asin: Bytes, isbn: Bytes, coverUrl: Bytes,
                                 publisher: Bytes, language: Bytes, runtimeMin: int)

  /** Go's string library, any behaviour whatsoever, and `int(float64(n) / float64(d) * w)`. */
  datatype Library = Library(lower: Bytes -> Bytes, trim: Bytes -> Bytes, fields: Bytes -> seq<Bytes>,
                             equalFold: (Bytes, Bytes) -> bool, scale: (nat, nat, nat) -> nat)

  /** A scaled fraction grows with its numerator, stays within the weight and is all of it at 1. */
  ghost predicate Scales(scale: (nat, nat, nat) -> nat) {
    && (forall m, n, d, w :: m <= n <= d && d > 0 ==> scale(m, d, w) <= scale(n, d, w))
    && (forall d, w :: d > 0 ==> scale(d, d, w) == w)
  }

  predicate Contains(s: Bytes, part: Bytes) {
    part <= s || (s != [] && Contains(s[1..], part))
  }

  /** One holds the other. */
  predicate Overlap(a: Bytes, b: Bytes) {
    Contains(a, b) || Contains(b, a)
  }

  function Norm(lib: Library, s: Bytes): Bytes {
    lib.lower(lib.trim(s))
  }

  // ------------------------------------------------------------------ what is scored

  function OverlapsAny(words: seq<Bytes>): Bytes -> bool {
    w => exists j :: 0 <= j < |words| && Overlap(words[j], w)
  }

  function MatchesAnyName(lib: Library, names: seq<Bytes>): Bytes -> bool {
    o => Norm(lib, o) != [] && SomeOverlaps(lib, names, Norm(lib, o))
  }

  predicate SomeOverlaps(lib: Library, names: seq<Bytes>, o: Bytes) {
    exists j :: 0 <= j < |names| && Norm(lib, names[j]) != [] && Overlap(Norm(lib, names[j]), o)
  }

  function TitlePoints(lib: Library, query: Bytes, title: Bytes): nat {
    var q, t := Norm(lib, query), Norm(lib, title);
    var words := lib.fields(q);
    if q == t then 30
    else if Overlap(t, q) then 22
    else if words == [] then 0
    else lib.scale(|Filter(words, OverlapsAny(lib.fields(t)))|, |words|, 30)
  }

  function NamePoints(lib: Library, original: seq<Bytes>, names: seq<Bytes>, weight: nat): nat {
    if original == [] || names == [] then 0
    else lib.scale(|Filter(original, MatchesAnyName(lib, names))|, |original|, weight)
  }

  function Bit(b: bool): nat {
    if b then 1 else 0
  }

  /** How many of the nine fields are populated; an ASIN and an ISBN are one between them. */
  function Populated(c: Candidate): (n: nat)
    ensures n <= 9
  {
    Bit(c.title != []) + Bit(c.authors != []) + Bit(c.narrators != []) + Bit(c.description != [])
    + Bit(c.coverUrl != [])
    + Bit(c.asin != [] || c.isbn != []) + Bit(c.publisher != []) + Bit(c.language != []) + Bit(c.runtimeMin > 0)
  }

  function CompletenessPoints(lib: Library, c: Candidate): nat {
    lib.scale(Populated(c), 9, 5)
  }

  predicate SameAsin(lib: Library, o: Candidate, c: Candidate) {
    o.asin != [] && c.asin != [] && lib.equalFold(o.asin, c.asin)
  }

  predicate SameIsbn(o: Candidate, c: Candidate) {
    o.isbn != [] && c.isbn != [] && o.isbn == c.isbn
  }

  function OriginalPoints(lib: Library, o: Candidate, c: Candidate): nat {
    (if SameAsin(lib, o, c) then 35 else 0) + NamePoints(lib, o.authors, c.authors, 15)
    + (if SameIsbn(o, c) then 15 else 0) + NamePoints(lib, o.narrators, c.narrators, 10)
  }

  function Score(lib: Library, query: Bytes, c: Candidate, original: Option<Candidate>): nat {
    var total := (if c.title != [] && query != [] then TitlePoints(lib, query, c.title) else 0)
                 + (if original.Some? then OriginalPoints(lib, original.value, c) else 0)
                 + CompletenessPoints(lib, c);
    if total > 100 then 100 else total
  }

  // ------------------------------------------------------------------ how it is scored

  method TitleScore(lib: Library, query: Bytes, title: Bytes) returns (n: nat)
    ensures n == TitlePoints(lib, query, title)
  {
    var q, t := lib.lower(lib.trim(query)), lib.lower(lib.trim(title));
    if q == t {
      return 30;
    }
    if Contains(t, q) || Contains(q, t) {
      return 22;
    }
    var qw, tw := lib.fields(q), lib.fields(t);
    if |qw| == 0 {
      return 0;
    }
    var matched := 0;
    for i := 0 to |qw|
      invariant matched == |Filter(qw[..i], OverlapsAny(tw))|
    {
      FilterSnoc(qw, i, OverlapsAny(tw));
      for j := 0 to |tw|
        invariant matched == |Filter(qw[..i], OverlapsAny(tw))|
        invariant forall k :: 0 <= k < j ==> !Overlap(tw[k], qw[i])
      {
        if Contains(tw[j], qw[i]) || Contains(qw[i], tw[j]) {
          matched := matched + 1;
          break;
        }
      }
    }
    assert qw[..|qw|] == qw;
    n := lib.scale(matched, |qw|, 30);
  }

  method MatchingNames(lib: Library, original: seq<Bytes>, candidates: seq<Bytes>) returns (n: nat)
    ensures n == |Filter(original, MatchesAnyName(lib, candidates))|
  {
    n := 0;
    for i := 0 to |original|
      invariant n == |Filter(original[..i], MatchesAnyName(lib, candidates))|
    {
      FilterSnoc(original, i, MatchesAnyName(lib, candidates));
      var ol := lib.lower(lib.trim(original[i]));
      if ol == [] {
        continue;
      }
      var found := MatchesSome(lib, ol, candidates);
      if found {
        n := n + 1;
      }
    }
    assert original[..|original|] == original;
  }

  /** The inner loop, up to its break. */
  method MatchesSome(lib: Library, ol: Bytes, candidates: seq<Bytes>) returns (found: bool)
    ensures found <==> SomeOverlaps(lib, candidates, ol)
  {
    for j := 0 to |candidates|
      invariant forall k :: 0 <= k < j ==> Norm(lib, candidates[k]) == [] || !Overlap(Norm(lib, candidates[k]), ol)
    {
      var cl := lib.lower(lib.trim(candidates[j]));
      if cl == [] {
        continue;
      }
      if Contains(cl, ol) || Contains(ol, cl) {
        return true;
      }
    }
    found := false;
  }

  lemma FilterSnoc(s: seq<Bytes>, i: nat, p: Bytes -> bool)
    requires i < |s|
    ensures |Filter(s[..i + 1], p)| == |Filter(s[..i], p)| + if p(s[i]) then 1 else 0
  {
    CountAppend(s[..i], s[i], p);
    assert s[..i + 1] == s[..i] + [s[i]];
  }

  lemma {:induction false} CountAppend(s: seq<Bytes>, x: Bytes, p: Bytes -> bool)
    ensures |Filter(s + [x], p)| == |Filter(s, p)| + if p(x) then 1 else 0
  {
    if s != [] {
      CountAppend(s[1..], x, p);
      assert (s + [x])[1..] == s[1..] + [x];
    }
  }

  method CompletenessScore(lib: Library, c: Candidate) returns (n: nat)
    ensures n == CompletenessPoints(lib, c)
  {
    var fields := 0;
    ghost var sum := 0;
    if c.title != [] { fields := fields + 1; }
    sum := sum + Bit(c.title != []);
    assert fields == sum;
    if |c.authors| > 0 { fields := fields + 1; }
    sum := sum + Bit(c.authors != []);
    assert fields == sum;
    if |c.narrators| > 0 { fields := fields + 1; }
    sum := sum + Bit(c.narrators != []);
    assert fields == sum;
    if c.description != [] { fields := fields + 1; }
    sum := sum + Bit(c.description != []);
    assert fields == sum;
    if c.coverUrl != [] { fields := fields + 1; }
    sum := sum + Bit(c.coverUrl != []);
    assert fields == sum;
    if c.asin != [] || c.isbn != [] { fields := fields + 1; }
    sum := sum + Bit(c.asin != [] || c.isbn != []);
    assert fields == sum;
    if c.publisher != [] { fields := fields + 1; }
    sum := sum + Bit(c.publisher != []);
    assert fields == sum;
    if c.language != [] { fields := fields + 1; }
    sum := sum + Bit(c.language != []);
    assert fields == sum;
    if c.runtimeMin > 0 { fields := fields + 1; }
    sum := sum + Bit(c.runtimeMin > 0);
    assert fields == sum;
    n := lib.scale(fields, 9, 5);
  }

  /** The same steps for authors and narrators. */
  method NameScore(lib: Library, original: seq<Bytes>, names: seq<Bytes>, weight: nat) returns (n: nat)
    ensures n == NamePoints(lib, original, names, weight)
  {
    if |original| == 0 || |names| == 0 {
      return 0;
    }
    var matched := MatchingNames(lib, original, names);
    n := lib.scale(matched, |original|, weight);
  }

  method CalculateConfidence(lib: Library, query: Bytes, c: Candidate, original: Option<Candidate>) returns (score: nat)
    ensures score == Score(lib, query, c, original) <= 100
  {
    score := 0;
    if c.title != [] && query != [] {
      score := TitleScore(lib, query, c.title);
    }
    if original.Some? {
      var o := original.value;
      if o.asin != [] && c.asin != [] {
        if lib.equalFold(o.asin, c.asin) {
          score := score + 35;
        }
      }
      var authors := NameScore(lib, o.authors, c.authors, 15);
      score := score + authors;
      if o.isbn != [] && c.isbn != [] {
        if o.isbn == c.isbn {
          score := score + 15;
        }
      }
      var narrators := NameScore(lib, o.narrators, c.narrators, 10);
      score := score + narrators;
    }
    var complete := CompletenessScore(lib, c);
    score := score + complete;
    if score > 100 {
      return 100;
    }
  }

  // ------------------------------------------------------------------ what follows

  lemma PointsWithinWeights(lib: Library, query: Bytes, c: Candidate, o: Candidate)
    requires Scales(lib.scale)
    ensures TitlePoints(lib, query, c.title) <= 30
    ensures NamePoints(lib, o.authors, c.authors, 15) <= 15 && NamePoints(lib, o.narrators, c.narrators, 10) <= 10
    ensures CompletenessPoints(lib, c) <= 5
  {
    var words := lib.fields(Norm(lib, query));
    assert words != [] ==> lib.scale(|words|, |words|, 30) == 30;
    assert o.authors != [] ==> lib.scale(|o.authors|, |o.authors|, 15) == 15;
    assert o.narrators != [] ==> lib.scale(|o.narrators|, |o.narrators|, 10) == 10;
    assert lib.scale(9, 9, 5) == 5;
  }

  /** `d` is `c` with any of its empty fields filled and any names appended. */
  predicate Fills(c: Candidate, d: Candidate) {
    && (c.title != [] ==> d.title == c.title)
    && c.authors <= d.authors && c.narrators <= d.narrators
    && (c.description != [] ==> d.description == c.description)
    && (c.asin != [] ==> d.asin == c.asin) && (c.isbn != [] ==> d.isbn == c.isbn)
    && (c.coverUrl != [] ==> d.coverUrl == c.coverUrl) && (c.publisher != [] ==> d.publisher == c.publisher)
    && (c.language != [] ==> d.language == c.language) && (c.runtimeMin > 0 ==> d.runtimeMin == c.runtimeMin)
  }

  lemma {:induction false} FilterMonotone(s: seq<Bytes>, p: Bytes -> bool, q: Bytes -> bool)
    requires forall x :: p(x) ==> q(x)
    ensures |Filter(s, p)| <= |Filter(s, q)|
  {
    if s != [] {
      FilterMonotone(s[1..], p, q);
    }
  }

  lemma NamePointsMonotone(lib: Library, original: seq<Bytes>, names: seq<Bytes>, more: seq<Bytes>, weight: nat)
    requires Scales(lib.scale) && names <= more
    ensures NamePoints(lib, original, names, weight) <= NamePoints(lib, original, more, weight)
  {
    var p, q := MatchesAnyName(lib, names), MatchesAnyName(lib, more);
    forall o | p(o)
      ensures q(o)
    {
      var j :| 0 <= j < |names| && Norm(lib, names[j]) != [] && Overlap(Norm(lib, names[j]), Norm(lib, o));
      assert more[j] == names[j];
    }
    FilterMonotone(original, p, q);
  }

  lemma PopulatedMonotone(c: Candidate, d: Candidate)
    requires Fills(c, d)
    ensures Populated(c) <= Populated(d)
  {
  }

  lemma OriginalPointsMonotone(lib: Library, o: Candidate, c: Candidate, d: Candidate)
    requires Scales(lib.scale) && Fills(c, d)
    ensures OriginalPoints(lib, o, c) <= OriginalPoints(lib, o, d)
  {
    NamePointsMonotone(lib, o.authors, c.authors, d.authors, 15);
    NamePointsMonotone(lib, o.narrators, c.narrators, d.narrators, 10);
  }

  /** Filling an empty field of a candidate, or appending authors or narrators, never lowers its score. */
  lemma FillingNeverLowers(lib: Library, query: Bytes, c: Candidate, d: Candidate, original: Option<Candidate>)
    requires Scales(lib.scale) && Fills(c, d)
    ensures Score(lib, query, c, original) <= Score(lib, query, d, original)
  {
    PopulatedMonotone(c, d);
    assert CompletenessPoints(lib, c) <= CompletenessPoints(lib, d);
    if original.Some? {
      OriginalPointsMonotone(lib, original.value, c, d);
    }
  }

  predicate OnlyAsin(o: Candidate) {
    o.asin != [] && o.isbn == [] && o.authors == [] && o.narrators == []
  }

  /** When the book is known by its ASIN alone, a candidate with that ASIN never scores below one
      without it; it scores the same exactly when the other has a perfect title and is complete while
      it has neither a point for its title nor one for completeness. */
  lemma AsinNeverLoses(lib: Library, query: Bytes, o: Candidate, a: Candidate, b: Candidate)
    requires Scales(lib.scale) && OnlyAsin(o) && SameAsin(lib, o, a) && !SameAsin(lib, o, b)
    ensures Score(lib, query, a, Some(o)) >= Score(lib, query, b, Some(o))
    ensures Score(lib, query, a, Some(o)) == Score(lib, query, b, Some(o)) <==>
      && b.title != [] && query != [] && TitlePoints(lib, query, b.title) == 30 && CompletenessPoints(lib, b) == 5
      && (a.title == [] || TitlePoints(lib, query, a.title) == 0) && CompletenessPoints(lib, a) == 0
  {
    PointsWithinWeights(lib, query, a, o);
    PointsWithinWeights(lib, query, b, o);
  }

  /** Nothing but an ASIN. */
  function BareAsin(asin: Bytes): Candidate {
    Candidate([], [], [], [], [], asin, [], [], [], [], 0)
  }

  /** Every field but the ASIN, and the query for a title. */
  function CompleteWithoutAsin(title: Bytes): Candidate {
    var text: Bytes := [120];
    Candidate([], title, [text], [text], text, [], text, text, text, text, 1)
  }

  /** The tie occurs, at 35, since one field of nine is worth no point: 5/9 truncated. */
  lemma AsinCanTie(lib: Library, query: Bytes, asin: Bytes)
    requires Scales(lib.scale) && lib.scale(1, 9, 5) == 0
    requires query != [] && asin != [] && lib.equalFold(asin, asin)
    ensures var o, a, b := BareAsin(asin), BareAsin(asin), CompleteWithoutAsin(query);
      && OnlyAsin(o) && SameAsin(lib, o, a) && !SameAsin(lib, o, b)
      && Score(lib, query, a, Some(o)) == 35 == Score(lib, query, b, Some(o))
  {
    var b := CompleteWithoutAsin(query);
    assert Populated(BareAsin(asin)) == 1 && Populated(b) == 9;
    assert lib.scale(9, 9, 5) == 5;
    assert TitlePoints(lib, query, b.title) == 30;
  }

  /** The original knows one thing only. */
  function KnowsOnly(asin: Bytes, isbn: Bytes, authors: seq<Bytes>, narrators: seq<Bytes>): Candidate {
    Candidate([], [], authors, narrators, [], asin, isbn, [], [], [], 0)
  }

  predicate AllMatch(lib: Library, original: seq<Bytes>, names: seq<Bytes>) {
    original != [] && forall i :: 0 <= i < |original| ==> MatchesAnyName(lib, names)(original[i])
  }

  /** What one agreement with the original is worth on top of what the candidate scores by itself:
      35 for the ASIN, 15 for all the authors, 15 for the ISBN, 10 for all the narrators. */
  lemma EachSignalIsWorth(lib: Library, query: Bytes, c: Candidate, asin: Bytes, isbn: Bytes, names: seq<Bytes>)
    requires Scales(lib.scale)
    ensures asin != [] && c.asin != [] && lib.equalFold(asin, c.asin) ==>
      Score(lib, query, c, Some(KnowsOnly(asin, [], [], []))) == Score(lib, query, c, None) + 35
    ensures isbn != [] && isbn == c.isbn ==>
      Score(lib, query, c, Some(KnowsOnly([], isbn, [], []))) == Score(lib, query, c, None) + 15
    ensures AllMatch(lib, names, c.authors) ==>
      Score(lib, query, c, Some(KnowsOnly([], [], names, []))) == Score(lib, query, c, None) + 15
    ensures AllMatch(lib, names, c.narrators) ==>
      Score(lib, query, c, Some(KnowsOnly([], [], [], names))) == Score(lib, query, c, None) + 10
  {
    PointsWithinWeights(lib, query, c, KnowsOnly(asin, isbn, names, names));
    if AllMatch(lib, names, c.authors) {
      AllMatchIsFull(lib, names, c.authors, 15);
    }
    if AllMatch(lib, names, c.narrators) {
      AllMatchIsFull(lib, names, c.narrators, 10);
    }
  }

  lemma AllMatchIsFull(lib: Library, original: seq<Bytes>, names: seq<Bytes>, weight: nat)
    requires Scales(lib.scale) && AllMatch(lib, original, names)
    ensures NamePoints(lib, original, names, weight) == weight
  {
    assert MatchesAnyName(lib, names)(original[0]);
    FilterAll(original, MatchesAnyName(lib, names));
  }

  /** A complete candidate that agrees with the book in every respect scores 100. */
  lemma PerfectMatchIsCertain(lib: Library, query: Bytes, o: Candidate, c: Candidate)
    requires Scales(lib.scale)
    requires query != [] && c.title != [] && Norm(lib, query) == Norm(lib, c.title)
    requires SameAsin(lib, o, c) && SameIsbn(o, c) && Populated(c) == 9
    requires AllMatch(lib, o.authors, c.authors) && AllMatch(lib, o.narrators, c.narrators)
    ensures Score(lib, query, c, Some(o)) == 100
  {
    AllMatchIsFull(lib, o.authors, c.authors, 15);
    AllMatchIsFull(lib, o.narrators, c.narrators, 10);
  }

  // ------------------------------------------------------------------ what each part is worth, exactly

  lemma {:induction false} ContainsExactly(s: Bytes, part: Bytes)
    ensures Contains(s, part) <==> exists i :: 0 <= i <= |s| && part <= s[i..]
  {
    assert s[0..] == s;
    if s != [] && !(part <= s) {
      var rest := s[1..];
      ContainsExactly(rest, part);
      assert forall i :: 0 <= i <= |rest| ==> rest[i..] == s[i + 1..];
      if i :| 0 <= i <= |s| && part <= s[i..] {
        assert i > 0 && rest[i - 1..] == s[i..];
      }
      if j :| 0 <= j <= |rest| && part <= rest[j..] {
        assert part <= s[j + 1..];
      }
    }
  }

  /** Where `s` holds something of `p`. */
  function Hits(s: seq<Bytes>, p: Bytes -> bool): set<int> {
    set i | 0 <= i < |s| && p(s[i])
  }

  lemma HitsSnoc(s: seq<Bytes>, x: Bytes, p: Bytes -> bool)
    ensures |Hits(s + [x], p)| == |Hits(s, p)| + if p(x) then 1 else 0
  {
    var n, more := |s|, s + [x];
    forall i
      ensures i in Hits(more, p) <==> i in Hits(s, p) || (i == n && p(x))
    {
      assert 0 <= i < n ==> more[i] == s[i];
    }
    assert n !in Hits(s, p);
    if p(x) {
      assert Hits(more, p) == Hits(s, p) + {n};
    } else {
      assert Hits(more, p) == Hits(s, p);
    }
  }

  lemma {:induction false} CountIsHits(s: seq<Bytes>, p: Bytes -> bool)
    ensures |Filter(s, p)| == |Hits(s, p)|
  {
    if s != [] {
      var n := |s| - 1;
      CountIsHits(s[..n], p);
      CountAppend(s[..n], s[n], p);
      HitsSnoc(s[..n], s[n], p);
      assert s == s[..n] + [s[n]];
    }
  }

  predicate HoldsEither(a: Bytes, b: Bytes) {
    Contains(a, b) || Contains(b, a)
  }

  /** The word holds, or is held by, some word of the title. */
  function WordHits(words: seq<Bytes>): Bytes -> bool {
    (w: Bytes) => exists j :: 0 <= j < |words| && HoldsEither(words[j], w)
  }

  predicate HitsName(y: Bytes, x: Bytes) {
    y != [] && HoldsEither(y, x)
  }

  /** The name, trimmed and in lower case, is not blank and holds, or is held by, some other that is not. */
  function NameHits(lib: Library, names: seq<Bytes>): Bytes -> bool {
    (o: Bytes) =>
      var x := lib.lower(lib.trim(o));
      x != [] && exists j :: 0 <= j < |names| && HitsName(lib.lower(lib.trim(names[j])), x)
  }

  lemma SameFilter(s: seq<Bytes>, p: Bytes -> bool, q: Bytes -> bool)
    requires forall x :: p(x) <==> q(x)
    ensures Filter(s, p) == Filter(s, q)
  {
  }

  /** How many of nine fields are filled, an ASIN and an ISBN being one. */
  function Filled(c: Candidate): nat {
    (if c.title == [] then 0 else 1) + (if c.authors == [] then 0 else 1) + (if c.narrators == [] then 0 else 1)
    + (if c.description == [] then 0 else 1) + (if c.coverUrl == [] then 0 else 1)
    + (if c.asin == [] && c.isbn == [] then 0 else 1) + (if c.publisher == [] then 0 else 1)
    + (if c.language == [] then 0 else 1) + (if c.runtimeMin <= 0 then 0 else 1)
  }

  lemma FilledIsPopulated(c: Candidate)
    ensures Filled(c) == Populated(c)
  {
  }

  /** Without a query and a book, a candidate scores for the fields it fills. */
  lemma FieldsAreWorth(lib: Library, c: Candidate)
    requires Scales(lib.scale)
    ensures Score(lib, [], c, None) == lib.scale(Filled(c), 9, 5) <= 5
  {
    FilledIsPopulated(c);
    PointsWithinWeights(lib, [], c, c);
  }

  /** A title adds 30 if it is the query but for case and blanks around, 22 if one holds the other, else the
      fraction of the query's words that hit a word of it. */
  lemma TitleIsWorth(lib: Library, query: Bytes, c: Candidate)
    requires Scales(lib.scale)
    ensures var q, t := lib.lower(lib.trim(query)), lib.lower(lib.trim(c.title));
      var words := lib.fields(q);
      Score(lib, query, c, None) == Score(lib, [], c, None) +
        if query == [] || c.title == [] then 0
        else if q == t then 30
        else if HoldsEither(t, q) then 22
        else if words == [] then 0
        else lib.scale(|Hits(words, WordHits(lib.fields(t)))|, |words|, 30)
  {
    var q, t := lib.lower(lib.trim(query)), lib.lower(lib.trim(c.title));
    PointsWithinWeights(lib, query, c, c);
    SameFilter(lib.fields(q), OverlapsAny(lib.fields(t)), WordHits(lib.fields(t)));
    CountIsHits(lib.fields(q), WordHits(lib.fields(t)));
  }

  /** The fraction of the book's names that hit one of the candidate's, none if either has none. */
  function NamesWorth(lib: Library, original: seq<Bytes>, names: seq<Bytes>, weight: nat): nat {
    if original == [] || names == [] then 0 else lib.scale(|Hits(original, NameHits(lib, names))|, |original|, weight)
  }

  lemma NamePointsAre(lib: Library, original: seq<Bytes>, names: seq<Bytes>, weight: nat)
    ensures NamePoints(lib, original, names, weight) == NamesWorth(lib, original, names, weight)
  {
    SameFilter(original, MatchesAnyName(lib, names), NameHits(lib, names));
    CountIsHits(original, NameHits(lib, names));
  }

  lemma OriginalAddsUp(lib: Library, query: Bytes, c: Candidate, o: Candidate)
    requires Scales(lib.scale)
    ensures var total := Score(lib, query, c, None) + OriginalPoints(lib, o, c);
      Score(lib, query, c, Some(o)) == if total <= 100 then total else 100
  {
    PointsWithinWeights(lib, query, c, o);
  }

  /** Against a book, the ASIN adds 35, the authors their fraction of 15, the ISBN 15 and the narrators their
      fraction of 10, and 100 is the most. */
  lemma OriginalIsWorth(lib: Library, query: Bytes, c: Candidate, o: Candidate)
    requires Scales(lib.scale)
    ensures var total := Score(lib, query, c, None)
        + (if o.asin != [] && c.asin != [] && lib.equalFold(o.asin, c.asin) then 35 else 0)
        + NamesWorth(lib, o.authors, c.authors, 15)
        + (if o.isbn != [] && o.isbn == c.isbn then 15 else 0)
        + NamesWorth(lib, o.narrators, c.narrators, 10);
      Score(lib, query, c, Some(o)) == if total <= 100 then total else 100
  {
    OriginalAddsUp(lib, query, c, o);
    NamePointsAre(lib, o.authors, c.authors, 15);
    NamePointsAre(lib, o.narrators, c.narrators, 10);
  }
}
