/**
 * The Malay-to-English month normaliser applied to the `date` field of a
 * prayer-time entry before it is parsed (`convert_my_to_en_date`).
 */
module Normaliser {
  import opened Wrappers
  import opened Text

  /** Month abbreviations in the server's spelling, January first. */
  const MalayMonths: seq<string> :=
    ["Jan", "Feb", "Mac", "Apr", "Mei", "Jun", "Jul", "Ogos", "Sep", "Okt", "Nov", "Dis"]

  /** The replacement spellings, January first; March keeps "Mac". */
  const EnglishMonths: seq<string> :=
    ["Jan", "Feb", "Mac", "Apr", "May", "Jun", "Jul", "Aug", "Sep", "Oct", "Nov", "Dec"]

  /** The only table positions ever consulted, in the order they are tried: Mei, Ogos, Okt, Dis. */
  const RewrittenMonths: seq<nat> := [4, 7, 9, 11]

  /**
   * Reference reading of the priority rule: the position in `order` of the
   * first month whose Malay token occurs in `s`.
   */
  function FirstContained(s: string, order: seq<nat>): (r: Option<nat>)
    requires forall j :: 0 <= j < |order| ==> order[j] < 12
    ensures r.None? <==> forall j :: 0 <= j < |order| ==> !Contains(s, MalayMonths[order[j]])
    ensures r.Some? ==> r.value < |order| && Contains(s, MalayMonths[order[r.value]])
    ensures r.Some? ==> forall i :: 0 <= i < r.value ==> !Contains(s, MalayMonths[order[i]])
  {
    if |order| == 0 then None
    else if Contains(s, MalayMonths[order[0]]) then Some(0)
    else
      match FirstContained(s, order[1..])
      case None => None
      case Some(j) => Some(j + 1)
  }

  /** The table position of the Malay token that `convert_my_to_en_date` rewrites in `s`, if any. */
  function PriorityMonth(s: string): (r: Option<nat>)
    ensures r.Some? ==> r.value in RewrittenMonths
  {
    match FirstContained(s, RewrittenMonths)
    case None => None
    case Some(j) => Some(RewrittenMonths[j])
  }

  /** `PriorityMonth` spelled out over the four positions, in order. */
  lemma PriorityMonthInOrder(s: string)
    ensures PriorityMonth(s) ==
      if Contains(s, MalayMonths[4]) then Some(4)
      else if Contains(s, MalayMonths[7]) then Some(7)
      else if Contains(s, MalayMonths[9]) then Some(9)
      else if Contains(s, MalayMonths[11]) then Some(11)
      else None
  {
    var order := RewrittenMonths;
    assert order[0] == 4 && order[1] == 7 && order[2] == 9 && order[3] == 11;
    var r := FirstContained(s, order);
    if r.Some? {
      var v := r.value;
      if Contains(s, MalayMonths[4]) {
        assert v == 0;
      } else if Contains(s, MalayMonths[7]) {
        assert v == 1;
      } else if Contains(s, MalayMonths[9]) {
        assert v == 2;
      } else {
        assert v == 3;
      }
    } else {
      assert !Contains(s, MalayMonths[order[0]]) && !Contains(s, MalayMonths[order[1]]);
      assert !Contains(s, MalayMonths[order[2]]) && !Contains(s, MalayMonths[order[3]]);
    }
  }

  /**
   * `convert_my_to_en_date`: the first of Mei, Ogos, Okt and Dis (in that
   * order) that occurs in `s` has every occurrence replaced by May, Aug, Oct
   * or Dec; the other tokens are left alone, and without any of them the
   * string is returned unchanged.
   */
  function ConvertMyToEnDate(s: string): (r: string)
    ensures PriorityMonth(s).None? ==> r == s
    ensures PriorityMonth(s).Some? ==>
              r == ReplaceAll(s, MalayMonths[PriorityMonth(s).value], EnglishMonths[PriorityMonth(s).value])
  {
    PriorityMonthInOrder(s);
    if Contains(s, MalayMonths[4]) then ReplaceAll(s, MalayMonths[4], EnglishMonths[4])
    else if Contains(s, MalayMonths[7]) then ReplaceAll(s, MalayMonths[7], EnglishMonths[7])
    else if Contains(s, MalayMonths[9]) then ReplaceAll(s, MalayMonths[9], EnglishMonths[9])
    else if Contains(s, MalayMonths[11]) then ReplaceAll(s, MalayMonths[11], EnglishMonths[11])
    else s
  }

  /** Without any of the four tokens the input passes through unchanged. */
  lemma NoMalayTokenPassesThrough(s: string)
    requires forall j :: 0 <= j < |RewrittenMonths| ==> !Contains(s, MalayMonths[RewrittenMonths[j]])
    ensures ConvertMyToEnDate(s) == s
  {
  }

  /** The eight months that are never rewritten have the same spelling in both tables. */
  lemma UnrewrittenMonthsAgree(k: nat)
    requires k < 12 && k !in RewrittenMonths
    ensures MalayMonths[k] == EnglishMonths[k]
  {
  }

  // ---------------------------------------------------------------------------
  // Well-formed `DD-<Mon>-YYYY` fields
  // ---------------------------------------------------------------------------

  /** The `date` field as the server writes it: day, dash, month token, dash, year. */
  function WireDate(dd: string, mon: string, yyyy: string): string {
    dd + "-" + mon + "-" + yyyy
  }

  predicate WellFormedParts(dd: string, yyyy: string) {
    |dd| == 2 && AllDigits(dd) && |yyyy| == 4 && AllDigits(yyyy)
  }

  /** The day with its dash, and the dash with the year, hold no letter. */
  lemma PartsHaveNoLetters(dd: string, yyyy: string)
    requires WellFormedParts(dd, yyyy)
    ensures forall i :: 0 <= i < |dd + "-"| ==> !IsLetter((dd + "-")[i])
    ensures forall i :: 0 <= i < |"-" + yyyy| ==> !IsLetter(("-" + yyyy)[i])
  {
    assert forall i :: 0 <= i < 2 ==> (dd + "-")[i] == dd[i];
    assert forall i :: 1 <= i < 5 ==> ("-" + yyyy)[i] == yyyy[i - 1];
  }

  /** In a well-formed field, every letter lies inside the month token. */
  lemma LetterPositions(dd: string, mon: string, yyyy: string)
    requires WellFormedParts(dd, yyyy)
    ensures forall j :: 0 <= j < |WireDate(dd, mon, yyyy)| && IsLetter(WireDate(dd, mon, yyyy)[j]) ==>
              3 <= j < 3 + |mon|
  {
    var w, head, tail := WireDate(dd, mon, yyyy), dd + "-", "-" + yyyy;
    PartsHaveNoLetters(dd, yyyy);
    assert w == head + mon + tail;
    assert forall j :: 0 <= j < 3 ==> w[j] == head[j];
    assert forall j :: 3 + |mon| <= j < |w| ==> w[j] == tail[j - 3 - |mon|];
  }

  /** In a well-formed field, a run of letters can only occur inside the month token. */
  lemma LettersOnlyInMonth(dd: string, mon: string, yyyy: string, t: string)
    requires WellFormedParts(dd, yyyy)
    requires |t| > 0 && AllLetters(t)
    requires Contains(WireDate(dd, mon, yyyy), t)
    ensures Contains(mon, t)
  {
    var w := WireDate(dd, mon, yyyy);
    ContainsHasOccurrence(w, t);
    var i :| OccursAt(w, t, i);
    LettersOccurInMonth(dd, mon, yyyy, t, i);
    OccurrenceIsContained(mon, t, i - 3);
  }

  /** An occurrence of a run of letters in a well-formed field is an occurrence in the month token. */
  lemma LettersOccurInMonth(dd: string, mon: string, yyyy: string, t: string, i: int)
    requires WellFormedParts(dd, yyyy)
    requires |t| > 0 && AllLetters(t)
    requires OccursAt(WireDate(dd, mon, yyyy), t, i)
    ensures OccursAt(mon, t, i - 3)
  {
    var w := WireDate(dd, mon, yyyy);
    LetterPositions(dd, mon, yyyy);
    assert w[i] == t[0] && w[i + |t| - 1] == t[|t| - 1];
    assert mon[i - 3..i - 3 + |t|] == w[i..i + |t|];
  }

  /** Rewriting the month token of a well-formed field touches nothing else. */
  lemma ReplaceMonthToken(dd: string, mon: string, yyyy: string, rep: string)
    requires WellFormedParts(dd, yyyy)
    requires |mon| > 0 && IsLetter(mon[0])
    ensures ReplaceAll(WireDate(dd, mon, yyyy), mon, rep) == WireDate(dd, rep, yyyy)
  {
    var head, tail := dd + "-", "-" + yyyy;
    assert WireDate(dd, mon, yyyy) == head + (mon + tail);
    PartsHaveNoLetters(dd, yyyy);
    ReplaceAllSkipsPrefix(head, mon + tail, mon, rep);
    ReplaceAllAtPattern(mon, rep, tail);
    ReplaceAllSkipsPrefix(tail, [], mon, rep);
    assert tail + [] == tail;
    assert head + (rep + tail) == WireDate(dd, rep, yyyy);
  }

  /** Month tokens are made of letters only. */
  lemma MonthTokensAreWords(k: nat)
    requires k < 12
    ensures |MalayMonths[k]| > 0 && AllLetters(MalayMonths[k])
    ensures |EnglishMonths[k]| > 0 && AllLetters(EnglishMonths[k])
  {
  }

  /** Of the twelve month tokens, a rewritten token occurs only in itself. */
  lemma MonthTokenContents(k: nat, j: nat)
    requires k < 12 && j in RewrittenMonths
    ensures Contains(MalayMonths[k], MalayMonths[j]) <==> k == j
  {
    var m, p := MalayMonths[k], MalayMonths[j];
    if k == 7 {
      // "Ogos" is the one four-letter token: look at its two three-letter windows.
      assert m == "Ogos" && m[1..] == "gos";
      ContainsNoLonger(m[1..], p);
      ContainsNoLonger(m[1..][1..], p);
      assert Contains(m, p) <==> m == p;
    } else {
      ContainsNoLonger(m, p);
    }
  }

  /**
   * For every month, a well-formed field in the server's spelling is
   * rewritten into the replacement table's spelling and nothing else changes.
   */
  lemma ConvertWireDate(dd: string, k: nat, yyyy: string)
    requires WellFormedParts(dd, yyyy) && k < 12
    ensures ConvertMyToEnDate(WireDate(dd, MalayMonths[k], yyyy)) == WireDate(dd, EnglishMonths[k], yyyy)
  {
    var w := WireDate(dd, MalayMonths[k], yyyy);
    forall j | j in RewrittenMonths && j != k ensures !Contains(w, MalayMonths[j]) {
      MonthTokensAreWords(j);
      MonthTokenContents(k, j);
      if Contains(w, MalayMonths[j]) {
        LettersOnlyInMonth(dd, MalayMonths[k], yyyy, MalayMonths[j]);
      }
    }
    PriorityMonthInOrder(w);
    MonthTokensAreWords(k);
    if k in RewrittenMonths {
      assert w[3..3 + |MalayMonths[k]|] == MalayMonths[k];
      OccurrenceIsContained(w, MalayMonths[k], 3);
      assert PriorityMonth(w) == Some(k);
      ReplaceMonthToken(dd, MalayMonths[k], yyyy, EnglishMonths[k]);
    } else {
      UnrewrittenMonthsAgree(k);
    }
  }

  /** No month token of the replacement table is one of the four rewritten Malay tokens. */
  lemma EnglishTokenIsNotRewritten(k: nat, j: nat)
    requires k < 12 && j in RewrittenMonths
    ensures EnglishMonths[k] != MalayMonths[j]
  {
  }

  /** After conversion a well-formed field holds none of the four rewritten tokens. */
  lemma ConvertedWireDateHasNoRewrittenToken(dd: string, k: nat, yyyy: string, j: nat)
    requires WellFormedParts(dd, yyyy) && k < 12 && j in RewrittenMonths
    ensures !Contains(ConvertMyToEnDate(WireDate(dd, MalayMonths[k], yyyy)), MalayMonths[j])
  {
    ConvertWireDate(dd, k, yyyy);
    MonthTokensAreWords(j);
    EnglishTokenHoldsNoRewrittenToken(k, j);
    if Contains(WireDate(dd, EnglishMonths[k], yyyy), MalayMonths[j]) {
      LettersOnlyInMonth(dd, EnglishMonths[k], yyyy, MalayMonths[j]);
    }
  }

  /** No English month name contains a rewritten Malay token. */
  lemma EnglishTokenHoldsNoRewrittenToken(k: nat, j: nat)
    requires k < 12 && j in RewrittenMonths
    ensures !Contains(EnglishMonths[k], MalayMonths[j])
  {
    EnglishTokenIsNotRewritten(k, j);
    ContainsNoLonger(EnglishMonths[k], MalayMonths[j]);
  }

  /** Only the highest-priority token is rewritten: a lower-priority one is left as it was. */
  lemma OnlyFirstTokenRewritten()
    ensures ConvertMyToEnDate("Mei Dis") == "May Dis"
  {
    var s := "Mei Dis";
    assert OccursAt(s, MalayMonths[4], 0);
    OccurrenceIsContained(s, MalayMonths[4], 0);
    PriorityMonthInOrder(s);
    assert s == MalayMonths[4] + " Dis";
    ReplaceAllAtPattern(MalayMonths[4], EnglishMonths[4], " Dis");
    ReplaceAllSkipsPrefix(" Dis", [], MalayMonths[4], EnglishMonths[4]);
    assert " Dis" + [] == " Dis";
  }

  /** No two of the rewritten Malay tokens can overlap in a text. */
  lemma RewrittenTokensSeparate(k: nat, j: nat)
    requires k in RewrittenMonths && j in RewrittenMonths && k != j
    ensures Separate(MalayMonths[k], MalayMonths[j])
  {
    var mei, ogos, okt, dis := MalayMonths[4], MalayMonths[7], MalayMonths[9], MalayMonths[11];
    assert mei == "Mei" && ogos == "Ogos" && okt == "Okt" && dis == "Dis";
    assert mei[1..] == "ei" && ogos[1..] == "gos" && okt[1..] == "kt" && dis[1..] == "is";
    assert ogos[..3][1] != okt[1];
  }

  /**
   * Every Malay token other than the one chosen survives the rewrite: only
   * the first token found is converted, whatever else the text holds.
   */
  lemma OtherTokensSurvive(s: string, j: nat)
    requires PriorityMonth(s).Some? && j in RewrittenMonths && j != PriorityMonth(s).value
    requires Contains(s, MalayMonths[j])
    ensures Contains(ConvertMyToEnDate(s), MalayMonths[j])
  {
    var k := PriorityMonth(s).value;
    RewrittenTokensSeparate(k, j);
    ContainsHasOccurrence(s, MalayMonths[j]);
    var i :| OccursAt(s, MalayMonths[j], i);
    ReplaceAllKeepsSeparate(s, MalayMonths[k], EnglishMonths[k], MalayMonths[j], i);
  }
}
