/**
 * Two of the string rules `_parse_watable_js_data` applies to each search
 * result once its fields have been scraped: the subject list is normalised
 * and the display title is composed from the original and translated titles.
 */
module WatableFields {
  import opened Common
  import opened Text

  /** The subject pieces: the raw text cut at every ';', each piece stripped, blank pieces dropped. */
  function SubjectPieces(raw: string): seq<string>
  {
    NonBlank(Split(raw, ';'))
  }

  /** Line 292: the pieces rejoined with "; ", or no subject at all when the raw text is empty. */
  function NormalizeSubjects(raw: string): Option<string>
  {
    if raw == "" then None else Some(Join(SubjectPieces(raw), "; "))
  }

  /** A normalised subject is the "; "-join of pieces that are non-empty, stripped and free of ';'. */
  lemma NormalizeSubjectsPieces(raw: string)
    ensures NormalizeSubjects(raw).None? <==> raw == ""
    ensures var ps := SubjectPieces(raw);
      && (raw != "" ==> NormalizeSubjects(raw) == Some(Join(ps, "; ")))
      && (forall i :: 0 <= i < |ps| ==> ps[i] != "" && Bare(ps[i], Whitespace) && ';' !in ps[i])
  {
    var lines := Split(raw, ';');
    NonBlankStripped(lines);
    NonBlankKeepsOut(lines, ';');
    assert forall i :: 0 <= i < |NonBlank(lines)| ==> Bare(NonBlank(lines)[i], Whitespace) && ';' !in NonBlank(lines)[i];
  }

  /** A leading space makes no difference once a line is stripped. */
  lemma StripLeadingSpace(x: string)
    ensures Strip([' '] + x) == Strip(x)
  {
    assert ([' '] + x)[1..] == x;
  }

  /** Two lines that strip alike clean alike in front of the same rest. */
  lemma NonBlankSameHead(a: string, b: string, rest: seq<string>)
    requires Strip(a) == Strip(b)
    ensures NonBlank([a] + rest) == NonBlank([b] + rest)
  {
    assert ([a] + rest)[1..] == rest && ([b] + rest)[1..] == rest;
  }

  /**
   * Cutting the join of clean pieces with `c` and a space at `c`, and
   * cleaning the lines again, gives the pieces back: the space after each
   * separator is stripped away.
   */
  lemma {:induction false} CleanPiecesRoundTrip(ps: seq<string>, c: char)
    requires |ps| >= 1 && c != ' '
    requires forall i :: 0 <= i < |ps| ==> ps[i] != "" && Bare(ps[i], Whitespace) && c !in ps[i]
    ensures NonBlank(Split(Join(ps, [c, ' ']), c)) == ps
    decreases |ps|
  {
    if |ps| == 1 {
      assert Strip(ps[0]) == ps[0] by {
        StripSetFixed(ps[0], Whitespace);
      }
      SplitAbsent(ps[0], c);
      assert NonBlank([ps[0]]) == [Strip(ps[0])] + NonBlank([]);
    } else {
      CleanPiecesRoundTrip(ps[1..], c);
      CleanPiecesStep(ps, c);
    }
  }

  /** The inductive step: a clean first piece in front of pieces that already come back. */
  lemma CleanPiecesStep(ps: seq<string>, c: char)
    requires |ps| > 1 && c != ' ' && ps[0] != "" && Bare(ps[0], Whitespace) && c !in ps[0]
    requires NonBlank(Split(Join(ps[1..], [c, ' ']), c)) == ps[1..]
    ensures NonBlank(Split(Join(ps, [c, ' ']), c)) == ps
  {
    var tail := Join(ps[1..], [c, ' ']);
    var rest := Split(tail, c);
    var spaced := [[' '] + rest[0]] + rest[1..];
    var whole := Split(Join(ps, [c, ' ']), c);
    assert whole == [ps[0]] + spaced by {
      assert Join(ps, [c, ' ']) == ps[0] + [c, ' '] + tail;
      SplitAfterSeparator(ps[0], c, tail);
    }
    assert NonBlank(spaced) == ps[1..] by {
      StripLeadingSpace(rest[0]);
      NonBlankSameHead([' '] + rest[0], rest[0], rest[1..]);
      HeadTail(rest);
    }
    assert NonBlank(whole) == [ps[0]] + ps[1..] by {
      NonBlankCons(ps[0], spaced);
    }
    HeadTail(ps);
  }

  /**
   * Cutting `x`, `c`, a space and `tail` at `c`, where `x` holds no `c` and `c` is not a space,
   * gives `x`, then the first piece of `tail` with the space in front.
   */
  lemma SplitAfterSeparator(x: string, c: char, tail: string)
    requires c !in x && c != ' '
    ensures var rest := Split(tail, c);
      Split(x + [c, ' '] + tail, c) == [x] + ([[' '] + rest[0]] + rest[1..])
  {
    assert x + [c, ' '] + tail == x + [c] + ([' '] + tail);
    SplitAtSeparator(x, c, [' '] + tail);
    assert ([' '] + tail)[1..] == tail;
  }

  /** A clean line in front is kept as it is. */
  lemma NonBlankCons(p: string, rest: seq<string>)
    requires p != "" && Bare(p, Whitespace)
    ensures NonBlank([p] + rest) == [p] + NonBlank(rest)
  {
    StripSetFixed(p, Whitespace);
    assert ([p] + rest)[1..] == rest;
  }

  /** Normalising a normalised, non-empty subject changes nothing. */
  lemma NormalizeSubjectsIdempotent(raw: string)
    requires NormalizeSubjects(raw).Some? && NormalizeSubjects(raw).value != ""
    ensures NormalizeSubjects(NormalizeSubjects(raw).value) == NormalizeSubjects(raw)
  {
    var ps := SubjectPieces(raw);
    NormalizeSubjectsPieces(raw);
    assert ps != [];
    assert "; " == [';', ' '];
    CleanPiecesRoundTrip(ps, ';');
  }

  /**
   * Where idempotence stops: raw text made only of separators and blanks
   * normalises to the empty subject, and normalising that gives no subject.
   */
  lemma NormalizeSubjectsBlank(raw: string)
    requires raw != "" && SubjectPieces(raw) == []
    ensures NormalizeSubjects(raw) == Some("")
    ensures NormalizeSubjects(NormalizeSubjects(raw).value) == None
  {
  }

  /** The smallest such input: a lone ';'. */
  lemma LoneSeparatorSubject()
    ensures NormalizeSubjects(";") == Some("") && NormalizeSubjects("") == None
  {
    assert Split(";", ';') == ["", ""] by {
      assert Find(";", ';') == 0;
      SplitFound(";", ';', 0);
      assert (";")[1..] == "";
    }
    NormalizeSubjectsBlank(";");
  }

  const Placeholder: string := "Title Not Parsed"

  /** The title shown before any translation: the original, unless it is missing or the default "N/A". */
  function BaseTitle(original: string): string
  {
    if original != "" && original != "N/A" then original else Placeholder
  }

  /** Lines 296-298: the base title, followed by " / " and the translation when there is a non-empty one. */
  function DisplayTitle(original: string, translated: Option<string>): string
  {
    var base := BaseTitle(original);
    if translated.Some? && translated.value != "" then base + " / " + translated.value else base
  }

  /**
   * The display title opens with the original title, or with the placeholder
   * when none was parsed; a translation, when given, closes it after " / ",
   * and without one the title is the opening alone.
   */
  lemma DisplayTitleParts(original: string, translated: Option<string>)
    ensures var r := DisplayTitle(original, translated);
      && (original == "" || original == "N/A" ==> StartsWith(r, Placeholder))
      && (original != "" && original != "N/A" ==> StartsWith(r, original))
      && (translated.Some? && translated.value != "" ==>
            EndsWith(r, " / " + translated.value) && |r| == |BaseTitle(original)| + 3 + |translated.value|)
      && (translated.None? || translated.value == "" ==> r == BaseTitle(original))
  {
    var base := BaseTitle(original);
    if translated.Some? && translated.value != "" {
      var r := DisplayTitle(original, translated);
      assert r == base + (" / " + translated.value);
      assert r[..|base|] == base;
    }
  }

  /** Without a translation, two parsed originals give the same display title only when they are equal. */
  lemma UntranslatedTitleInjective(o1: string, o2: string)
    requires o1 != "" && o1 != "N/A" && o2 != "" && o2 != "N/A"
    requires DisplayTitle(o1, None) == DisplayTitle(o2, None)
    ensures o1 == o2
  {
  }

  /** Different translations of the same original give different display titles. */
  lemma DisplayTitleInjective(original: string, t1: Option<string>, t2: Option<string>)
    requires t1.Some? && t1.value != "" && t2.Some? && t2.value != ""
    requires DisplayTitle(original, t1) == DisplayTitle(original, t2)
    ensures t1 == t2
  {
    var base := BaseTitle(original) + " / ";
    var r := DisplayTitle(original, t1);
    assert r == base + t1.value && r == base + t2.value;
    assert t1.value == r[|base|..] == t2.value;
  }
}
