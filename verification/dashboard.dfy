/** The dashboard's task list and the choice of the query to run for the selected label. */
module Dashboard {
  import opened Options
  import opened Strings

  /** The titles of the select box's labels, in order: label `i` is "Q<i + 1> " followed by
      title `i`, and names query `i + 1`. */
  const Titles: seq<string> := [
    "Top 10 strongest earthquakes (mag)",
    "Top 10 deepest earthquakes (depth_km)",
    "Shallow <50 km & mag > 7.5",
    "Average depth per continent (needs mapping)",
    "Average magnitude per magType",
    "Year with most earthquakes",
    "Month with highest number of earthquakes",
    "Day of week with most earthquakes",
    "Count of earthquakes per hour of day",
    "Most active reporting network (net)",
    "Top 5 places with highest casualties",
    "Total estimated economic loss per continent (needs mapping)",
    "Average economic loss by alert level",
    "Count of reviewed vs automatic earthquakes (status)",
    "Count by earthquake type (type)",
    "Number of earthquakes by data type (types)",
    "Average RMS and gap per continent (needs mapping)",
    "Events with high station coverage (nst > 100)",
    "Number of tsunamis triggered per year",
    "Count earthquakes by alert levels",
    "Top 5 countries with highest average magnitude (past 10 years)",
    "Countries with both shallow and deep quakes in same month",
    "Year-over-year growth rate in total earthquakes",
    "3 most seismically active regions (freq * avg_mag)",
    "Avg depth per country within ±5° latitude",
    "Countries highest ratio shallow:deep",
    "Avg magnitude difference tsunami vs no-tsunami",
    "Events with lowest data reliability (rms+gap)",
    "Pairs of consecutive quakes within 50 km & 1 hour (limited)",
    "Regions with highest frequency of deep-focus quakes (>300 km)"
  ]

  /** The number of query branches. */
  const QueryCount: nat := 30

  predicate StartsWith(s: string, prefix: string) {
    |prefix| <= |s| && s[..|prefix|] == prefix
  }

  /** The code of query `q`: "Q" and its number. */
  function Code(q: nat): string {
    "Q" + ShowNat(q)
  }

  /** Label `i` of the select box. */
  function Label(i: nat): string
    requires i < |Titles|
  {
    Code(i + 1) + " " + Titles[i]
  }

  /** The select box's options. */
  function Tasks(): (r: seq<string>)
    ensures |r| == QueryCount && forall i | 0 <= i < QueryCount :: r[i] == Label(i)
  {
    seq(|Titles|, i requires 0 <= i < |Titles| => Label(i))
  }

  /** The if/elif chain: the first of queries `q`..30, in order, whose code starts the choice
      (followed by a space when `spaced`); None falls through to "Task not implemented.". */
  function FirstMatch(choice: string, q: nat, spaced: bool): (r: Option<nat>)
    requires q >= 1
    ensures r.Some? ==>
      q <= r.value <= QueryCount && StartsWith(choice, if spaced then Code(r.value) + " " else Code(r.value))
    ensures forall p | q <= p <= QueryCount && (r.None? || p < r.value) ::
      !StartsWith(choice, if spaced then Code(p) + " " else Code(p))
    decreases QueryCount - q
  {
    if q > QueryCount then None
    else if StartsWith(choice, if spaced then Code(q) + " " else Code(q)) then Some(q)
    else FirstMatch(choice, q + 1, spaced)
  }

  /** Lines 94-323 as written: branch `Qn` is taken when the choice starts with "Qn". */
  function DispatchAsWritten(choice: string): (r: Option<nat>)
    ensures r.Some? ==> 1 <= r.value <= QueryCount && StartsWith(choice, Code(r.value))
    ensures forall p | 1 <= p <= QueryCount && (r.None? || p < r.value) :: !StartsWith(choice, Code(p))
  {
    FirstMatch(choice, 1, false)
  }

  /** The dispatch the task list calls for: branch `Qn` is taken when the choice starts with
      "Qn " (the code as a whole word). */
  function Dispatch(choice: string): (r: Option<nat>)
    ensures r.Some? ==> 1 <= r.value <= QueryCount && StartsWith(choice, Code(r.value) + " ")
    ensures forall p | 1 <= p <= QueryCount && (r.None? || p < r.value) :: !StartsWith(choice, Code(p) + " ")
  {
    FirstMatch(choice, 1, true)
  }

  /** A string a spaced code starts is started by no other spaced code. */
  lemma SpacedCodeUnique(s: string, a: nat, b: nat)
    requires StartsWith(s, Code(b) + " ") && a != b
    ensures !StartsWith(s, Code(a) + " ")
  {
    var pa, pb := Code(a) + " ", Code(b) + " ";
    if |pa| < |pb| {
      var k := |pa| - 1;
      assert s[k] == pb[k] == ShowNat(b)[k - 1];
      assert IsDigit(ShowNat(b)[k - 1]);
      assert pa[k] == ' ';
    } else if |pb| < |pa| {
      var k := |pb| - 1;
      assert s[k] == pb[k] == ' ';
      assert pa[k] == ShowNat(a)[k - 1];
      assert IsDigit(ShowNat(a)[k - 1]);
    } else {
      DigitsValueOfShowNat(a);
      DigitsValueOfShowNat(b);
      assert pa[1..|pa| - 1] == ShowNat(a) && pb[1..|pb| - 1] == ShowNat(b);
      assert s[..|pa|] == pb != pa;
    }
  }

  /** The code of a one-digit query number. */
  lemma CodeOfDigit(d: nat)
    requires 1 <= d < 10
    ensures Code(d) == ['Q', DigitChar(d)]
  {
  }

  /** The code of a two-digit query number. */
  lemma CodeOfTwoDigits(q: nat)
    requires 10 <= q < 100
    ensures Code(q) == ['Q', DigitChar(q / 10), DigitChar(q % 10)]
  {
    assert ShowNat(q) == ShowNat(q / 10) + [DigitChar(q % 10)];
  }

  /** The corrected dispatch runs, for every label, the query the label names. */
  lemma DispatchSelectsOwn(i: nat)
    requires i < QueryCount
    ensures Dispatch(Tasks()[i]) == Some(i + 1)
  {
    var s := Label(i);
    assert StartsWith(s, Code(i + 1) + " ") by {
      assert s[..|Code(i + 1) + " "|] == Code(i + 1) + " ";
    }
    forall p | 1 <= p < i + 1
      ensures !StartsWith(s, Code(p) + " ")
    {
      SpacedCodeUnique(s, p, i + 1);
    }
  }

  /** A string that starts with a one-digit code starts with no other one-digit code. */
  lemma OneDigitCodeUnique(s: string, p: nat, d: nat)
    requires 1 <= p < 10 && 1 <= d < 10 && p != d
    requires |s| >= 2 && s[..2] == Code(d)
    ensures !StartsWith(s, Code(p))
  {
    CodeOfDigit(p);
    CodeOfDigit(d);
    assert DigitValue(DigitChar(p)) != DigitValue(DigitChar(d));
    assert Code(p)[1] != s[1];
  }

  /** When the label's first two characters are the code of `d`, the chain as written takes
      branch `d`. */
  lemma AsWrittenTakesDigit(s: string, d: nat)
    requires 1 <= d < 10 && |s| >= 2 && s[..2] == Code(d)
    ensures DispatchAsWritten(s) == Some(d)
  {
    forall p | 1 <= p < d
      ensures !StartsWith(s, Code(p))
    {
      OneDigitCodeUnique(s, p, d);
    }
    CodeOfDigit(d);
  }

  /** As written, the branch taken for a label is the one named by the label's first digit:
      every label from Q10 on is taken by an earlier branch whose code is a prefix of its own,
      so "Q10".."Q19" run Q1, "Q20".."Q29" run Q2 and "Q30" runs Q3. */
  lemma DispatchAsWrittenFirstDigit(i: nat)
    requires i < QueryCount
    ensures DispatchAsWritten(Tasks()[i]) == Some(if i < 9 then i + 1 else (i + 1) / 10)
  {
    var s := Label(i);
    if i < 9 {
      CodeOfDigit(i + 1);
      assert s[..2] == Code(i + 1);
      AsWrittenTakesDigit(s, i + 1);
    } else {
      var d := (i + 1) / 10;
      CodeOfDigit(d);
      CodeOfTwoDigits(i + 1);
      assert s[..2] == Code(i + 1)[..2] == Code(d);
      AsWrittenTakesDigit(s, d);
    }
  }

  /** The concrete case: choosing the Q10 label runs the Q1 query, not Q10. */
  lemma Q10RunsQ1()
    ensures DispatchAsWritten(Tasks()[9]) == Some(1) && Dispatch(Tasks()[9]) == Some(10)
  {
    DispatchAsWrittenFirstDigit(9);
    DispatchSelectsOwn(9);
  }

  /** As written, queries Q10 to Q30 are never run from the select box. */
  lemma UnreachableAsWritten(q: nat)
    requires 10 <= q <= QueryCount
    ensures forall i | 0 <= i < QueryCount :: DispatchAsWritten(Tasks()[i]) != Some(q)
  {
    forall i | 0 <= i < QueryCount
      ensures DispatchAsWritten(Tasks()[i]) != Some(q)
    {
      DispatchAsWrittenFirstDigit(i);
    }
  }
}
