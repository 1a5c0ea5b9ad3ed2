/**
 * The part of the legacy single-file screen that the current screen moved
 * into its option button: the colour of each option button.
 */
module LegacyApp {
  import opened Types

  const White: string := "#fff"
  const Green: string := "#d4edda"
  const Red: string := "#f8d7da"
  const Grey: string := "#f0f0f0"

  /** `getButtonColor(options[i])`, with the selected option given by its position. */
  function ButtonColor(options: seq<WordItem>, selected: Option<nat>, i: nat): (color: string)
    requires i < |options|
    ensures selected.None? ==> color == White
    ensures selected.Some? ==> (color == Green <==> IsTagged(options[i]))
    ensures selected.Some? ==> (color == Red <==> selected.value == i && !IsTagged(options[i]))
    ensures selected.Some? ==> (color == Grey <==> selected.value != i && !IsTagged(options[i]))
  {
    if selected.None? then White
    else if IsTagged(options[i]) then Green
    else if selected.value == i then Red
    else Grey
  }

  /**
   * After an answer on a question with exactly one tagged option `c`: `c` is
   * the only green button, the chosen button is red when it is not `c`, and
   * every other button is grey.
   */
  lemma {:induction false} AnsweredColors(options: seq<WordItem>, c: nat, j: nat)
    requires c < |options| && j < |options|
    requires forall i :: 0 <= i < |options| ==> (IsTagged(options[i]) <==> i == c)
    ensures ButtonColor(options, Some(j), c) == Green
    ensures j != c ==> ButtonColor(options, Some(j), j) == Red
    ensures forall i :: 0 <= i < |options| && i != c && i != j ==> ButtonColor(options, Some(j), i) == Grey
    ensures forall i :: 0 <= i < |options| && i != j ==> ButtonColor(options, Some(j), i) != Red
  {
    assert IsTagged(options[c]);
    forall i | 0 <= i < |options| && i != c
      ensures !IsTagged(options[i])
    {
    }
  }
}
