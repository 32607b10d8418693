/**
 * The two helpers of the bills page: `formatStage`, which turns a stage code
 * such as "SECOND_READING" into "Second Reading", and the search filter,
 * which keeps the bills whose title, description or some sponsor contains the
 * search term, ignoring case.
 */
module Bills {
  import opened Text
  import opened Sequences

  /** The fields of a bill the helpers read (the page's other fields are not modelled). */
  datatype Bill = Bill(id: int, title: string, description: string, currentStage: string, sponsors: seq<string>)

  /** A character of the regular-expression class `\w`. */
  predicate IsWordChar(c: char)
  {
    IsLetter(c) || '0' <= c <= '9' || c == '_'
  }

  /** `/\b\w/` matches at position i: a word character not preceded by one. */
  predicate IsWordStart(s: string, i: int)
    requires 0 <= i < |s|
  {
    IsWordChar(s[i]) && (i == 0 || !IsWordChar(s[i - 1]))
  }

  function Unscore(c: char): char
  {
    if c == '_' then ' ' else c
  }

  /** `s.replace(/_/g, ' ')` */
  function ReplaceUnderscores(s: string): (r: string)
    ensures |r| == |s|
    ensures forall i {:trigger r[i]} :: 0 <= i < |s| ==> r[i] == Unscore(s[i])
  {
    if s == [] then [] else [Unscore(s[0])] + ReplaceUnderscores(s[1..])
  }

  /**
   * The left-to-right scan of `replace(/\b\w/g, l => l.toUpperCase())` over
   * `s` from position `i` on.
   */
  function CapitalizeFrom(s: string, i: nat): (r: string)
    requires i <= |s|
    ensures |r| == |s| - i
    ensures forall j {:trigger r[j]} :: 0 <= j < |r| ==> r[j] == if IsWordStart(s, i + j) then UpperChar(s[i + j]) else s[i + j]
    decreases |s| - i
  {
    if i == |s| then []
    else [if IsWordStart(s, i) then UpperChar(s[i]) else s[i]] + CapitalizeFrom(s, i + 1)
  }

  /** `s.replace(/\b\w/g, l => l.toUpperCase())`: every word start is upper-cased, nothing else changes. */
  function CapitalizeWords(s: string): (r: string)
    ensures |r| == |s|
    ensures forall i {:trigger r[i]} :: 0 <= i < |s| ==> r[i] == if IsWordStart(s, i) then UpperChar(s[i]) else s[i]
  {
    CapitalizeFrom(s, 0)
  }

  /** `formatStage(stage)` */
  function FormatStage(stage: string): string
  {
    CapitalizeWords(ToLower(ReplaceUnderscores(stage)))
  }

  lemma WordCharCaseless(c: char)
    ensures IsWordChar(LowerChar(c)) == IsWordChar(c)
    ensures IsWordChar(UpperChar(c)) == IsWordChar(c)
  {
  }

  /**
   * `r` is `stage` formatted, position by position: `r` has the same length,
   * its word characters are those of `stage` other than `_`, and each
   * character is the stage's character with `_` made a space, upper-cased
   * where it starts a word of `r` and lower-cased everywhere else.
   */
  ghost predicate FormatsAs(stage: string, r: string)
  {
    && |r| == |stage|
    && (forall i {:trigger stage[i]} :: 0 <= i < |stage| ==> IsWordChar(r[i]) == IsWordChar(Unscore(stage[i])))
    && (forall i {:trigger stage[i]} :: 0 <= i < |stage| ==>
          r[i] == if IsWordStart(r, i) then UpperChar(LowerChar(Unscore(stage[i]))) else LowerChar(Unscore(stage[i])))
  }

  /** `formatStage` meets the position-by-position description. */
  lemma FormatStageAt(stage: string)
    ensures FormatsAs(stage, FormatStage(stage))
  {
    var t := ToLower(ReplaceUnderscores(stage));
    var r := FormatStage(stage);
    forall i | 0 <= i < |stage| ensures IsWordChar(r[i]) == IsWordChar(t[i]) == IsWordChar(Unscore(stage[i])) {
      WordCharCaseless(Unscore(stage[i]));
      WordCharCaseless(t[i]);
    }
    forall i | 0 <= i < |stage|
      ensures r[i] == if IsWordStart(r, i) then UpperChar(LowerChar(Unscore(stage[i]))) else LowerChar(Unscore(stage[i]))
    {
      assert IsWordStart(r, i) == IsWordStart(t, i);
    }
  }

  lemma FormattedShape(stage: string, r: string)
    requires FormatsAs(stage, r)
    ensures forall i :: 0 <= i < |r| ==> r[i] != '_'
    ensures forall i :: 0 <= i < |r| && IsLetter(r[i]) ==> (IsUpper(r[i]) <==> IsWordStart(r, i))
  {
    forall i | 0 <= i < |r|
      ensures r[i] != '_'
      ensures IsLetter(r[i]) ==> (IsUpper(r[i]) <==> IsWordStart(r, i))
    {
      var c := LowerChar(Unscore(stage[i]));
      assert c != '_' && !IsUpper(c);
    }
  }

  /**
   * The output of `formatStage` has the input's length, holds no `_`, and a
   * letter in it is upper-case exactly when it starts a word.
   */
  lemma FormatStageShape(stage: string)
    ensures |FormatStage(stage)| == |stage|
    ensures forall i :: 0 <= i < |stage| ==> FormatStage(stage)[i] != '_'
    ensures forall i :: 0 <= i < |stage| && IsLetter(FormatStage(stage)[i]) ==>
      (IsUpper(FormatStage(stage)[i]) <==> IsWordStart(FormatStage(stage), i))
  {
    FormatStageAt(stage);
    FormattedShape(stage, FormatStage(stage));
  }

  lemma FormattedIsFixed(stage: string, r: string, q: string)
    requires FormatsAs(stage, r) && FormatsAs(r, q)
    ensures q == r
  {
    FormattedShape(stage, r);
    forall i | 0 <= i < |r| ensures IsWordChar(q[i]) == IsWordChar(r[i]) {
      assert Unscore(r[i]) == r[i];
    }
    forall i | 0 <= i < |r| ensures IsWordStart(q, i) == IsWordStart(r, i) {
      if i > 0 {
        assert IsWordChar(q[i - 1]) == IsWordChar(r[i - 1]);
      }
    }
    forall i | 0 <= i < |r| ensures q[i] == r[i] {
      assert Unscore(r[i]) == r[i];
      var c := LowerChar(Unscore(stage[i]));
      assert r[i] == if IsWordStart(r, i) then UpperChar(c) else c;
    }
  }

  /** Formatting a formatted stage changes nothing. */
  lemma FormatStageIdempotent(stage: string)
    ensures FormatStage(FormatStage(stage)) == FormatStage(stage)
  {
    FormatStageAt(stage);
    FormatStageAt(FormatStage(stage));
    FormattedIsFixed(stage, FormatStage(stage), FormatStage(FormatStage(stage)));
  }

  lemma FormatsSecondReading(stage: string, r: string)
    requires stage == "SECOND_READING" && FormatsAs(stage, r)
    ensures r == "Second Reading"
  {
    forall i | 0 <= i < 14 ensures IsWordChar(r[i]) == (i != 6) {
      assert IsWordChar(Unscore(stage[i])) == (i != 6);
    }
    forall i | 0 <= i < 14 ensures r[i] == "Second Reading"[i] {
      assert IsWordStart(r, i) == (i == 0 || i == 7);
      var c := LowerChar(Unscore(stage[i]));
      assert c == "second reading"[i];
      assert r[i] == if i == 0 || i == 7 then UpperChar(c) else c;
    }
  }

  /** The stage code "SECOND_READING" is shown as "Second Reading". */
  lemma FormatStageExample(stage: string)
    requires stage == "SECOND_READING"
    ensures FormatStage(stage) == "Second Reading"
  {
    FormatStageAt(stage);
    FormatsSecondReading(stage, FormatStage(stage));
  }

  /** `sponsors.some(s => s.toLowerCase().includes(q))` */
  predicate SomeSponsorIncludes(sponsors: seq<string>, q: string)
  {
    sponsors != [] && (Includes(ToLower(sponsors[0]), q) || SomeSponsorIncludes(sponsors[1..], q))
  }

  lemma {:induction false} SomeSponsorIncludesIff(sponsors: seq<string>, q: string)
    ensures SomeSponsorIncludes(sponsors, q) <==> exists k :: 0 <= k < |sponsors| && Includes(ToLower(sponsors[k]), q)
  {
    if sponsors != [] {
      SomeSponsorIncludesIff(sponsors[1..], q);
      assert forall k :: 1 <= k < |sponsors| ==> sponsors[k] == sponsors[1..][k - 1];
    }
  }

  /** The predicate `filteredBills` applies to each bill. */
  predicate MatchesSearch(bill: Bill, term: string)
  {
    var q := ToLower(term);
    Includes(ToLower(bill.title), q) || Includes(ToLower(bill.description), q) || SomeSponsorIncludes(bill.sponsors, q)
  }

  /** The term occurs in `s` at some position once both are lower-cased. */
  ghost predicate ContainsIgnoringCase(s: string, term: string)
  {
    exists i :: OccursAt(ToLower(s), ToLower(term), i)
  }

  /**
   * A bill is kept exactly when the lower-cased term occurs in its
   * lower-cased title, its lower-cased description, or some lower-cased sponsor.
   */
  lemma MatchesSearchIff(bill: Bill, term: string)
    ensures MatchesSearch(bill, term) <==>
      ContainsIgnoringCase(bill.title, term) || ContainsIgnoringCase(bill.description, term)
      || exists k :: 0 <= k < |bill.sponsors| && ContainsIgnoringCase(bill.sponsors[k], term)
  {
    var q := ToLower(term);
    IncludesIffOccurs(ToLower(bill.title), q);
    IncludesIffOccurs(ToLower(bill.description), q);
    SomeSponsorIncludesIff(bill.sponsors, q);
    forall k | 0 <= k < |bill.sponsors|
      ensures Includes(ToLower(bill.sponsors[k]), q) <==> ContainsIgnoringCase(bill.sponsors[k], term)
    {
      IncludesIffOccurs(ToLower(bill.sponsors[k]), q);
    }
  }

  /** `filteredBills`: the bills matching the term, in their original order. */
  function FilterBills(bills: seq<Bill>, term: string): (r: seq<Bill>)
    ensures |r| <= |bills|
  {
    if bills == [] then []
    else (if MatchesSearch(bills[0], term) then [bills[0]] else []) + FilterBills(bills[1..], term)
  }

  /** Every matching bill is kept as often as it occurs, and no other bill is kept. */
  lemma {:induction false} FilterKeepsExactlyMatches(bills: seq<Bill>, term: string)
    ensures forall b ::
      multiset(FilterBills(bills, term))[b] == if MatchesSearch(b, term) then multiset(bills)[b] else 0
  {
    if bills != [] {
      FilterKeepsExactlyMatches(bills[1..], term);
      assert bills == [bills[0]] + bills[1..];
    }
  }

  /** The kept bills are a subsequence of the input: `idx` gives their strictly increasing positions. */
  lemma {:induction false} FilterIsSubsequence(bills: seq<Bill>, term: string) returns (idx: seq<int>)
    ensures Embeds(FilterBills(bills, term), bills, idx)
  {
    if bills == [] {
      idx := [];
    } else {
      var tail := FilterBills(bills[1..], term);
      var rest := FilterIsSubsequence(bills[1..], term);
      EmbedsInTail(tail, bills, rest);
      if MatchesSearch(bills[0], term) {
        assert FilterBills(bills, term) == [bills[0]] + tail;
        idx := [0] + Shifted(rest);
      } else {
        assert FilterBills(bills, term) == tail;
        idx := Shifted(rest);
      }
    }
  }

  /** An empty search term keeps every bill. */
  lemma {:induction false} EmptyTermKeepsAll(bills: seq<Bill>)
    ensures FilterBills(bills, "") == bills
  {
    if bills != [] {
      IncludesEmpty(ToLower(bills[0].title));
      EmptyTermKeepsAll(bills[1..]);
    }
  }

  /** Two terms that lower-case alike select the same bills. */
  lemma {:induction false} FilterDependsOnLowerCasedTerm(bills: seq<Bill>, t1: string, t2: string)
    requires ToLower(t1) == ToLower(t2)
    ensures FilterBills(bills, t1) == FilterBills(bills, t2)
  {
    if bills != [] {
      FilterDependsOnLowerCasedTerm(bills[1..], t1, t2);
    }
  }

  /** The filter ignores the case of the term: its upper- and lower-case forms select the same bills. */
  lemma FilterIgnoresTermCase(bills: seq<Bill>, term: string)
    ensures FilterBills(bills, ToUpper(term)) == FilterBills(bills, term)
    ensures FilterBills(bills, ToLower(term)) == FilterBills(bills, term)
  {
    LowerOfUpper(term);
    FilterDependsOnLowerCasedTerm(bills, ToUpper(term), term);
    FilterDependsOnLowerCasedTerm(bills, ToLower(term), term);
  }
}
