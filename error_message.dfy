/**
 * How the client assembles `error_msg`: fragments are appended with a "; "
 * separator, and the message finally returned has ';' and ' ' stripped from
 * both ends, or is absent when nothing went wrong.
 */
module ErrorMessage {
  import opened Common
  import opened Text

  /** Python's truth value of an optional message: present and not empty. */
  predicate HasError(e: Option<string>)
  {
    e.Some? && e.value != ""
  }

  /** The characters `strip("; ")` removes. */
  const Trimmed: set<char> := {';', ' '}

  /** `(error_msg + "; " if error_msg else "") + fragment`. */
  function AppendError(e: Option<string>, fragment: string): string
  {
    if HasError(e) then e.value + "; " + fragment else fragment
  }

  /** The message after appending the fragments one after another, starting from `e`. */
  function AppendAll(e: Option<string>, fragments: seq<string>): Option<string>
  {
    if fragments == [] then e
    else Some(AppendError(AppendAll(e, fragments[..|fragments| - 1]), fragments[|fragments| - 1]))
  }

  /** `error_msg.strip("; ") if error_msg else None`. */
  function FinalError(e: Option<string>): (r: Option<string>)
    ensures r.Some? <==> HasError(e)
  {
    if HasError(e) then Some(StripSet(e.value, Trimmed)) else None
  }

  /** The message returned has neither ';' nor ' ' at its ends, so stripping it again changes nothing. */
  lemma FinalErrorIsStripped(e: Option<string>)
    requires HasError(e)
    ensures var r := FinalError(e).value;
      && (r == [] || (r[0] !in Trimmed && r[|r| - 1] !in Trimmed))
      && StripSet(r, Trimmed) == r
  {
    StripSetEnds(e.value, Trimmed);
    StripSetIdempotent(e.value, Trimmed);
  }

  /** Starting from no message, appending non-empty fragments joins them with "; ". */
  lemma {:induction false} AppendAllJoins(fragments: seq<string>)
    requires |fragments| >= 1 && forall i :: 0 <= i < |fragments| ==> fragments[i] != ""
    ensures AppendAll(None, fragments) == Some(Join(fragments, "; "))
    decreases |fragments|
  {
    var n := |fragments|;
    if n > 1 {
      var init := fragments[..n - 1];
      AppendAllJoins(init);
      assert init[0] == fragments[0];
      assert Join(init, "; ") != "" by {
        JoinStartsWithFirst(init, "; ");
      }
      JoinAppend(init, fragments[n - 1], "; ");
      assert init + [fragments[n - 1]] == fragments;
    } else {
      assert fragments[..0] == [];
    }
  }

  /** A join starts with its first piece. */
  lemma {:induction false} JoinStartsWithFirst(parts: seq<string>, sep: string)
    requires |parts| >= 1
    ensures |parts[0]| <= |Join(parts, sep)| && Join(parts, sep)[..|parts[0]|] == parts[0]
  {
    if |parts| > 1 {
      assert Join(parts, sep) == parts[0] + (sep + Join(parts[1..], sep));
    }
  }

  /**
   * The last fragment appended survives the final strip whole when its own
   * ends are neither ';' nor ' ' (as every fragment the client writes is).
   */
  lemma FinalErrorEndsWith(e: Option<string>, fragment: string)
    requires fragment != [] && fragment[0] !in Trimmed && fragment[|fragment| - 1] !in Trimmed
    ensures var r := FinalError(Some(AppendError(e, fragment)));
      r.Some? && EndsWith(r.value, fragment)
  {
    var m := AppendError(e, fragment);
    var r := StripSet(m, Trimmed);
    assert FinalError(Some(m)) == Some(r) by {
      assert |m| >= |fragment| > 0;
    }
    assert EndsWith(r, fragment) by {
      var x := if HasError(e) then e.value + "; " else "";
      assert m == x + fragment;
      StripSetKeepsTail(x, fragment, Trimmed);
    }
  }
}
