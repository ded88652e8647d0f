/** `src/components/JustificationInput.tsx`: the text box in which the player explains a
    pending move before it is sent. The component keeps no state of its own; it is modelled as
    the functions it computes from its props and the key pressed. */
module JustificationInput {
  import opened Wrappers
  import opened Text

  const MinChars: nat := 10
  const MaxChars: nat := 280

  /** `isValid`: between the minimum and the maximum number of characters, both included. */
  predicate IsValid(text: string)
  {
    MinChars <= |text| <= MaxChars
  }

  /** The `onChange` handler: the new value is cut to its first 280 characters. */
  function Truncate(text: string): (kept: string)
    ensures |kept| <= MaxChars
    ensures |kept| <= |text| && kept == text[..|kept|]
    ensures |text| <= MaxChars ==> kept == text
    ensures |text| > MaxChars ==> |kept| == MaxChars
  {
    Slice(text, 0, MaxChars)
  }

  /** Cutting twice is cutting once. */
  lemma TruncateIdempotent(text: string)
    ensures Truncate(Truncate(text)) == Truncate(text)
  {
  }

  /** A value that went through `onChange` is valid exactly when it reaches the minimum. */
  lemma TruncatedValidity(text: string)
    ensures IsValid(Truncate(text)) <==> |text| >= MinChars
  {
  }

  /** What a key press does: whether the browser's default is prevented and whether the move
      is submitted. */
  datatype KeyEffect = KeyEffect(preventDefault: bool, submit: bool)

  /** `handleKeyDown`: Enter without Shift never inserts a newline, and submits when the text is
      valid and the box is enabled; every other key is left to the text box. */
  function HandleKeyDown(key: string, shiftKey: bool, text: string, disabled: bool): (e: KeyEffect)
    ensures e.submit ==> e.preventDefault
    ensures e.preventDefault <==> key == "Enter" && !shiftKey
    ensures e.submit <==> key == "Enter" && !shiftKey && IsValid(text) && !disabled
  {
    if key == "Enter" && !shiftKey then KeyEffect(true, IsValid(text) && !disabled)
    else KeyEffect(false, false)
  }

  /** The submit button's `disabled` attribute. */
  predicate SubmitDisabled(text: string, disabled: bool)
  {
    !IsValid(text) || disabled
  }

  /** The keyboard and the button agree: Enter submits exactly when the button is enabled, and
      Shift+Enter (a new line) never submits. */
  lemma EnterMatchesButton(text: string, disabled: bool, shiftKey: bool)
    ensures HandleKeyDown("Enter", false, text, disabled).submit <==> !SubmitDisabled(text, disabled)
    ensures !HandleKeyDown("Enter", true, text, disabled).submit
  {
  }

  /** The counter turns green once the minimum is reached. */
  predicate CounterMet(text: string)
  {
    |text| >= MinChars
  }

  /** The `(N left)` hint: shown above 90% of the maximum (`280 * 0.9` is exactly 252 in
      floating point), with the number of characters still allowed. */
  function RemainingHint(text: string): (hint: Option<int>)
    ensures hint.Some? <==> |text| > 252
    ensures hint.Some? ==> hint.value == MaxChars - |text|
  {
    if |text| > 252 then Some(MaxChars - |text|) else None
  }

  /** On a value that went through `onChange`, the hint never counts below zero or above 27. */
  lemma HintBounds(text: string)
    ensures var hint := RemainingHint(Truncate(text));
            hint.Some? ==> 0 <= hint.value <= 27
  {
  }
}
