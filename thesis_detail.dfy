/**
 * The field splitting of `_parse_thesis_detail_html`: the text of the
 * "künye" (bibliographic record) cell and of the "durum" (status) cell of a
 * thesis detail page is cut into lines, and the lines are assigned to the
 * detail fields. Locating the cells in the page is not part of this model;
 * each cell is given as its text with a newline for every line break.
 */
module ThesisDetail {
  import opened Common
  import opened Text

  /** The labels that open the non-title lines of the künye cell, in the order they are tested. */
  const Labels: seq<string> := ["Yazar:", "Danışman:", "Yer Bilgisi:", "Konu:", "Dizin:"]

  /** The lines of a cell: its text split at the line breaks, stripped, blank lines dropped. */
  function CellParts(text: string): seq<string>
  {
    NonBlank(Split(text, '\n'))
  }

  /** No line of a cell is empty, has whitespace at its ends or holds a line break. */
  lemma CellPartsClean(text: string)
    ensures var parts := CellParts(text);
      forall i :: 0 <= i < |parts| ==> parts[i] != "" && Bare(parts[i], Whitespace) && '\n' !in parts[i]
  {
    var lines := Split(text, '\n');
    NonBlankStripped(lines);
    NonBlankKeepsOut(lines, '\n');
    assert forall i :: 0 <= i < |NonBlank(lines)| ==> Bare(NonBlank(lines)[i], Whitespace) && '\n' !in NonBlank(lines)[i];
  }

  /** The index of the first label `part` starts with, tested in the source's `elif` order. */
  function LabelOf(part: string): (r: Option<nat>)
    ensures r.Some? ==> r.value < |Labels|
  {
    if StartsWith(part, Labels[0]) then Some(0)
    else if StartsWith(part, Labels[1]) then Some(1)
    else if StartsWith(part, Labels[2]) then Some(2)
    else if StartsWith(part, Labels[3]) then Some(3)
    else if StartsWith(part, Labels[4]) then Some(4)
    else None
  }

  /** A line gets a label exactly when it starts with one, and then it starts with that label. */
  lemma LabelOfStartsWith(part: string)
    ensures var r := LabelOf(part);
      && (r.Some? ==> StartsWith(part, Labels[r.value]))
      && (r.None? <==> forall l :: 0 <= l < |Labels| ==> !StartsWith(part, Labels[l]))
  {
  }

  /** No line starts with two labels, so the order of the tests decides nothing. */
  lemma LabelsExclusive(part: string, l: nat)
    requires l < |Labels| && StartsWith(part, Labels[l])
    ensures LabelOf(part) == Some(l)
  {
    var m := LabelOf(part).value;
    // The labels differ in their first two characters.
    assert Labels[0][0] == 'Y' && Labels[0][1] == 'a';
    assert Labels[1][0] == 'D' && Labels[1][1] == 'a';
    assert Labels[2][0] == 'Y' && Labels[2][1] == 'e';
    assert Labels[3][0] == 'K';
    assert Labels[4][0] == 'D' && Labels[4][1] == 'i';
    assert part[0] == Labels[l][0] && part[1] == Labels[l][1] by {
      assert part[..|Labels[l]|] == Labels[l];
    }
    assert part[0] == Labels[m][0] && part[1] == Labels[m][1] by {
      assert part[..|Labels[m]|] == Labels[m];
    }
  }

  /** `part.replace(label, "", 1).strip()` for the label that opens the line. */
  function Value(part: string, l: nat): string
    requires l < |Labels|
  {
    Strip(RemoveFirst(part, Labels[l]))
  }

  /** A labelled line's value is the rest of the line after its label, stripped. */
  lemma ValueAfterLabel(part: string, l: nat)
    requires l < |Labels| && StartsWith(part, Labels[l])
    ensures Value(part, l) == Strip(part[|Labels[l]|..])
  {
  }

  /** The number of leading lines, from `i` on, that start with no label: the title lines. */
  function TitleLength(parts: seq<string>, i: nat): (r: nat)
    requires i <= |parts|
    ensures i <= r <= |parts|
    ensures forall j :: i <= j < r ==> LabelOf(parts[j]).None?
    ensures r < |parts| ==> LabelOf(parts[r]).Some?
    decreases |parts| - i
  {
    if i < |parts| && LabelOf(parts[i]).None? then TitleLength(parts, i + 1) else i
  }

  /**
   * The index of the last line in `parts[from..upto]` that carries label
   * `l`, or `None` when no line there does.
   */
  function LastLabelled(parts: seq<string>, from: nat, upto: nat, l: nat): (r: Option<nat>)
    requires from <= upto <= |parts|
    ensures r.Some? ==> from <= r.value < upto && LabelOf(parts[r.value]) == Some(l)
    ensures r.Some? ==> forall k :: r.value < k < upto ==> LabelOf(parts[k]) != Some(l)
    ensures r.None? ==> forall k :: from <= k < upto ==> LabelOf(parts[k]) != Some(l)
    decreases upto
  {
    if upto == from then None
    else if LabelOf(parts[upto - 1]) == Some(l) then Some(upto - 1)
    else LastLabelled(parts, from, upto - 1, l)
  }

  /** The field for label `l` after the lines `parts[from..upto]`: each labelled line overwrites it. */
  function LastWithLabel(parts: seq<string>, from: nat, upto: nat, l: nat): Option<string>
    requires from <= upto <= |parts| && l < |Labels|
  {
    var j := LastLabelled(parts, from, upto, l);
    if j.Some? then Some(Value(parts[j.value], l)) else None
  }

  /** One more line either sets the field for its own label or leaves every field as it was. */
  lemma LastWithLabelStep(parts: seq<string>, from: nat, j: nat, l: nat)
    requires from <= j < |parts| && l < |Labels|
    ensures LastWithLabel(parts, from, j + 1, l)
              == if LabelOf(parts[j]) == Some(l) then Some(Value(parts[j], l)) else LastWithLabel(parts, from, j, l)
  {
  }

  /** The fields the künye cell fills; `None` is a field the cell did not give. */
  datatype Kunye = Kunye(titleCombined: Option<string>, titleTr: Option<string>, titleEn: Option<string>,
                         author: Option<string>, advisor: Option<string>, locationInfo: Option<string>,
                         subjectInfo: Option<string>, indexTerms: Option<string>)

  /** `[ts.strip() for ts in pieces]`. */
  function StripEach(pieces: seq<string>): seq<string>
  {
    seq(|pieces|, i requires 0 <= i < |pieces| => Strip(pieces[i]))
  }

  /** The Turkish title: the combined title up to its first '/', stripped. */
  function TitleTr(combined: string): string
  {
    Strip(Split(combined, '/')[0])
  }

  /** The English title: the pieces after the first '/', stripped and joined with " / ", when there is a '/'. */
  function TitleEn(combined: string): Option<string>
  {
    var pieces := Split(combined, '/');
    if |pieces| > 1 then Some(Join(StripEach(pieces[1..]), " / ")) else None
  }

  /** The record after the title scan: the titles from the first `n` lines, when there are any, and nothing else. */
  function Titles(parts: seq<string>, n: nat): Kunye
    requires n <= |parts|
  {
    var combined := Join(parts[..n], " ");
    Kunye(if n > 0 then Some(combined) else None,
          if n > 0 then Some(TitleTr(combined)) else None,
          if n > 0 then TitleEn(combined) else None,
          None, None, None, None, None)
  }

  /** What lines 157-174 leave in the künye fields for the cell's lines `parts`. */
  function KunyeOf(parts: seq<string>): Kunye
  {
    var n := TitleLength(parts, 0);
    Titles(parts, n).(author := LastWithLabel(parts, n, |parts|, 0), advisor := LastWithLabel(parts, n, |parts|, 1),
                      locationInfo := LastWithLabel(parts, n, |parts|, 2),
                      subjectInfo := LastWithLabel(parts, n, |parts|, 3),
                      indexTerms := LastWithLabel(parts, n, |parts|, 4))
  }

  /** One pass of the `elif` chain of lines 167-174: the line `part` with label `tag` sets that label's field. */
  function Assign(k: Kunye, tag: Option<nat>, part: string): Kunye
  {
    if tag == Some(0) then k.(author := Some(Value(part, 0)))
    else if tag == Some(1) then k.(advisor := Some(Value(part, 1)))
    else if tag == Some(2) then k.(locationInfo := Some(Value(part, 2)))
    else if tag == Some(3) then k.(subjectInfo := Some(Value(part, 3)))
    else if tag == Some(4) then k.(indexTerms := Some(Value(part, 4)))
    else k
  }

  /** The record after the loop of lines 166-174 has run over `parts[from..upto]`, starting from `k0`. */
  function Scan(parts: seq<string>, from: nat, upto: nat, k0: Kunye): Kunye
    requires from <= upto <= |parts|
    decreases upto
  {
    if upto == from then k0 else Assign(Scan(parts, from, upto - 1, k0), LabelOf(parts[upto - 1]), parts[upto - 1])
  }

  /**
   * Running the loop from a record with no labelled field set fills each
   * labelled field with the value of the last line that carries its label,
   * and leaves the titles alone.
   */
  lemma {:induction false} ScanIsLastLabel(parts: seq<string>, from: nat, upto: nat, k0: Kunye)
    requires from <= upto <= |parts|
    requires k0.author.None? && k0.advisor.None? && k0.locationInfo.None?
    requires k0.subjectInfo.None? && k0.indexTerms.None?
    ensures Scan(parts, from, upto, k0)
              == k0.(author := LastWithLabel(parts, from, upto, 0), advisor := LastWithLabel(parts, from, upto, 1),
                     locationInfo := LastWithLabel(parts, from, upto, 2),
                     subjectInfo := LastWithLabel(parts, from, upto, 3),
                     indexTerms := LastWithLabel(parts, from, upto, 4))
    decreases upto
  {
    if upto > from {
      var j := upto - 1;
      ScanIsLastLabel(parts, from, j, k0);
      LastWithLabelStep(parts, from, j, 0);
      LastWithLabelStep(parts, from, j, 1);
      LastWithLabelStep(parts, from, j, 2);
      LastWithLabelStep(parts, from, j, 3);
      LastWithLabelStep(parts, from, j, 4);
    }
  }

  /**
   * Lines 157-165: collect the lines up to the first labelled one and derive
   * the titles from them; `i` is where the labelled lines begin.
   */
  method CollectTitle(parts: seq<string>) returns (i: nat, k: Kunye)
    ensures i == TitleLength(parts, 0) && k == Titles(parts, i)
  {
    k := Kunye(None, None, None, None, None, None, None, None);
    i := 0;
    var candidates: seq<string> := [];
    while i < |parts| && LabelOf(parts[i]).None?
      invariant i <= |parts| && candidates == parts[..i]
      invariant TitleLength(parts, i) == TitleLength(parts, 0)
      decreases |parts| - i
    {
      candidates := candidates + [parts[i]];
      i := i + 1;
    }
    if candidates != [] {
      var combined := Join(candidates, " ");
      var split := Split(combined, '/');
      k := k.(titleCombined := Some(combined), titleTr := Some(Strip(split[0])));
      if |split| > 1 {
        k := k.(titleEn := Some(Join(StripEach(split[1..]), " / ")));
      }
    }
  }

  /** Lines 166-174: each line from `from` on that starts with a label sets that label's field. */
  method FillLabels(parts: seq<string>, from: nat, k0: Kunye) returns (k: Kunye)
    requires from <= |parts|
    ensures k == Scan(parts, from, |parts|, k0)
  {
    k := k0;
    for j := from to |parts|
      invariant k == Scan(parts, from, j, k0)
    {
      // `LabelOf` is the source's chain of `startswith` tests.
      var part := parts[j];
      var tag := LabelOf(part);
      if tag == Some(0) {
        k := k.(author := Some(Value(part, 0)));
      } else if tag == Some(1) {
        k := k.(advisor := Some(Value(part, 1)));
      } else if tag == Some(2) {
        k := k.(locationInfo := Some(Value(part, 2)));
      } else if tag == Some(3) {
        k := k.(subjectInfo := Some(Value(part, 3)));
      } else if tag == Some(4) {
        k := k.(indexTerms := Some(Value(part, 4)));
      }
    }
  }

  /** Lines 156-174: the title scan, then the labelled lines, for a non-empty cell. */
  method ParseKunye(parts: seq<string>) returns (k: Kunye)
    ensures k == KunyeOf(parts)
  {
    k := Kunye(None, None, None, None, None, None, None, None);
    if parts != [] {
      var i;
      i, k := CollectTitle(parts);
      ghost var titled := k;
      k := FillLabels(parts, i, k);
      ScanIsLastLabel(parts, i, |parts|, titled);
    }
  }

  /**
   * The title is the run of lines before the first labelled one, joined with
   * spaces; there is none when the first line is labelled (or there are no lines).
   */
  lemma KunyeTitleLines(parts: seq<string>)
    ensures var k := KunyeOf(parts); var n := TitleLength(parts, 0);
      && (k.titleCombined.Some? <==> n > 0) && (k.titleTr.Some? <==> n > 0)
      && (k.titleCombined.Some? ==> k.titleCombined.value == Join(parts[..n], " "))
      && (forall j :: 0 <= j < n ==> LabelOf(parts[j]).None?)
      && (n < |parts| ==> LabelOf(parts[n]).Some?)
  {
  }

  /**
   * The Turkish title is the text before the first '/' of the combined title,
   * stripped. The English title is present exactly when there is a '/', and is
   * then the rest after that '/', cut at every further '/', each piece
   * stripped, joined with " / ".
   */
  lemma KunyeTitleSplit(parts: seq<string>)
    requires TitleLength(parts, 0) > 0
    ensures var k := KunyeOf(parts); var c := k.titleCombined.value; var p := Find(c, '/');
      && k.titleTr == Some(Strip(c[..p]))
      && (k.titleEn.Some? <==> p < |c|)
      && (p < |c| ==> k.titleEn == Some(Join(StripEach(Split(c[p + 1..], '/')), " / ")))
  {
    var c := KunyeOf(parts).titleCombined.value;
    SplitFirst(c, '/');
  }

  /**
   * `f` is what the last line carrying label `l` gives: absent exactly when
   * no line carries the label, and otherwise the value of the line
   * `LastLabelled` finds, after which no line carries it.
   */
  predicate IsLastLabelled(f: Option<string>, parts: seq<string>, l: nat)
    requires l < |Labels|
  {
    var j := LastLabelled(parts, 0, |parts|, l);
    && (f.None? <==> forall i :: 0 <= i < |parts| ==> LabelOf(parts[i]) != Some(l))
    && (f.Some? ==> j.Some? && f.value == Value(parts[j.value], l))
  }

  /**
   * Each labelled field holds the value of the last line carrying its label
   * and is absent exactly when no line carries it. The title scan never hides
   * a labelled line, so the whole list of lines decides.
   */
  lemma KunyeLastLabelWins(parts: seq<string>)
    ensures var k := KunyeOf(parts);
      && IsLastLabelled(k.author, parts, 0) && IsLastLabelled(k.advisor, parts, 1)
      && IsLastLabelled(k.locationInfo, parts, 2) && IsLastLabelled(k.subjectInfo, parts, 3)
      && IsLastLabelled(k.indexTerms, parts, 4)
  {
    TitleHidesNoLabel(parts, 0);
    TitleHidesNoLabel(parts, 1);
    TitleHidesNoLabel(parts, 2);
    TitleHidesNoLabel(parts, 3);
    TitleHidesNoLabel(parts, 4);
  }

  /** Searching only after the title lines finds the last labelled line of the whole list. */
  lemma TitleHidesNoLabel(parts: seq<string>, l: nat)
    requires l < |Labels|
    ensures IsLastLabelled(LastWithLabel(parts, TitleLength(parts, 0), |parts|, l), parts, l)
  {
    var n := TitleLength(parts, 0);
    var j := LastLabelled(parts, 0, |parts|, l);
    assert LastLabelled(parts, n, |parts|, l) == j by {
      LastLabelledSkipsUnlabelled(parts, 0, n, |parts|, l);
    }
    if j.Some? {
      assert !forall i :: 0 <= i < |parts| ==> LabelOf(parts[i]) != Some(l) by {
        assert LabelOf(parts[j.value]) == Some(l);
      }
    }
  }

  /** Lines without a label before `mid` add nothing to the search. */
  lemma {:induction false} LastLabelledSkipsUnlabelled(parts: seq<string>, from: nat, mid: nat, upto: nat, l: nat)
    requires from <= mid <= upto <= |parts|
    requires forall j :: from <= j < mid ==> LabelOf(parts[j]).None?
    ensures LastLabelled(parts, from, upto, l) == LastLabelled(parts, mid, upto, l)
    decreases upto
  {
    if upto > mid {
      LastLabelledSkipsUnlabelled(parts, from, mid, upto - 1, l);
    } else if upto > from {
      LastLabelledSkipsUnlabelled(parts, from, mid - 1, upto - 1, l);
    }
  }

  /** The fields the durum cell fills, by position. */
  datatype Durum = Durum(statusText: Option<string>, thesisTypeText: Option<string>, languageText: Option<string>,
                         yearText: Option<string>, pagesText: Option<string>)

  /** The `i`-th line, when there is one. */
  function Nth(parts: seq<string>, i: nat): Option<string>
  {
    if i < |parts| then Some(parts[i]) else None
  }

  /** Lines 178-182: the first five lines of the durum cell, in order; lines past the fifth are ignored. */
  function DurumOf(parts: seq<string>): Durum
  {
    Durum(Nth(parts, 0), Nth(parts, 1), Nth(parts, 2), Nth(parts, 3), Nth(parts, 4))
  }

  /** The fields of a durum record as a list, up to the first absent one. */
  function Present(d: Durum): seq<string>
  {
    var fs := [d.statusText, d.thesisTypeText, d.languageText, d.yearText, d.pagesText];
    PresentFrom(fs, 0)
  }

  function PresentFrom(fs: seq<Option<string>>, i: nat): seq<string>
    requires i <= |fs|
    decreases |fs| - i
  {
    if i == |fs| || fs[i].None? then [] else [fs[i].value] + PresentFrom(fs, i + 1)
  }

  /**
   * The durum fields are the cell's first lines in order: exactly as many as
   * there are lines, up to five, and the rest stay absent.
   */
  lemma DurumPositional(parts: seq<string>)
    ensures Present(DurumOf(parts)) == parts[..Min(5, |parts|)]
    ensures var d := DurumOf(parts); |parts| < 5 ==> d.pagesText.None?
  {
    var d := DurumOf(parts);
    var fs := [d.statusText, d.thesisTypeText, d.languageText, d.yearText, d.pagesText];
    PresentFromNth(parts, fs, 0);
  }

  lemma {:induction false} PresentFromNth(parts: seq<string>, fs: seq<Option<string>>, i: nat)
    requires |fs| == 5 && i <= 5 && forall j :: 0 <= j < 5 ==> fs[j] == Nth(parts, j)
    ensures PresentFrom(fs, i) == parts[Min(i, |parts|)..Min(5, |parts|)]
    decreases 5 - i
  {
    if i < 5 && i < |parts| {
      PresentFromNth(parts, fs, i + 1);
      assert parts[i..Min(5, |parts|)] == [parts[i]] + parts[i + 1..Min(5, |parts|)];
    }
  }
}
