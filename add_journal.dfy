/** The new-entry form (client/src/pages/AddJournal.tsx): when its submit button is enabled,
    the character counter under the text field, and what a submission does to the form's
    state. The access token and the POST are outside the model: the handler receives their
    outcome. */
module AddJournal {
  import opened Wrappers
  import opened JournalEntryModel

  const MaxChars: nat := 300
  const SavedMessage := "\U{2705} Journal entry saved!"
  const DefaultError := "Something went wrong."

  // ---------------------------------------------------------------------------------------
  // `text.trim()`

  /** The characters `String.prototype.trim` removes: the WhiteSpace and LineTerminator
      characters of ECMAScript (tab, vertical tab, form feed, the byte order mark, the space
      separators of Unicode, line feed, carriage return, and the line and paragraph
      separators). */
  predicate IsWhitespace(c: char)
  {
    || c == '\t' || c == '\U{000B}' || c == '\U{000C}' || c == ' ' || c == '\U{00A0}'
    || c == '\U{FEFF}' || c == '\U{1680}' || ('\U{2000}' <= c <= '\U{200A}') || c == '\U{202F}'
    || c == '\U{205F}' || c == '\U{3000}'
    || c == '\n' || c == '\r' || c == '\U{2028}' || c == '\U{2029}'
  }

  /** `s` without its leading whitespace. */
  function TrimStart(s: string): (r: string)
    ensures |r| <= |s| && r == s[|s| - |r|..]
    ensures forall i :: 0 <= i < |s| - |r| ==> IsWhitespace(s[i])
    ensures r == [] || !IsWhitespace(r[0])
  {
    if s != [] && IsWhitespace(s[0]) then TrimStart(s[1..]) else s
  }

  /** `s` without its trailing whitespace. */
  function TrimEnd(s: string): (r: string)
    ensures |r| <= |s| && r == s[..|r|]
    ensures forall i :: |r| <= i < |s| ==> IsWhitespace(s[i])
    ensures r == [] || !IsWhitespace(r[|r| - 1])
  {
    if s != [] && IsWhitespace(s[|s| - 1]) then TrimEnd(s[..|s| - 1]) else s
  }

  function Trim(s: string): string
  {
    TrimEnd(TrimStart(s))
  }

  /** Trimming leaves nothing exactly when every character is whitespace. */
  lemma TrimEmptyIffBlank(s: string)
    ensures Trim(s) == [] <==> forall i :: 0 <= i < |s| ==> IsWhitespace(s[i])
  {
    var t := TrimStart(s);
    if Trim(s) == [] {
      assert t == [];
    } else {
      assert t != [] && !IsWhitespace(t[0]);
      assert s[|s| - |t|] == t[0];
    }
  }

  // ---------------------------------------------------------------------------------------
  // The submit button: `disabled={!text.trim() || text.length > maxChars}`.

  predicate SubmitDisabled(text: string)
  {
    Trim(text) == "" || |text| > MaxChars
  }

  /** Submitting is possible exactly when the text has a character other than whitespace and is
      at most 300 characters long. */
  lemma CanSubmitMeaning(text: string)
    ensures !SubmitDisabled(text) <==>
              (exists i :: 0 <= i < |text| && !IsWhitespace(text[i])) && |text| <= MaxChars
  {
    TrimEmptyIffBlank(text);
  }

  // ---------------------------------------------------------------------------------------
  // The counter: `${text.length}/${maxChars} characters`.

  function DigitChar(d: nat): (c: char)
    requires d < 10
    ensures '0' <= c <= '9'
  {
    ['0', '1', '2', '3', '4', '5', '6', '7', '8', '9'][d]
  }

  /** The decimal numeral of `n`, as a template literal writes a non-negative integer. */
  function NatToString(n: nat): (s: string)
    ensures s != []
    ensures forall i :: 0 <= i < |s| ==> '0' <= s[i] <= '9'
    ensures |s| > 1 ==> s[0] != '0'
  {
    if n < 10 then [DigitChar(n)] else NatToString(n / 10) + [DigitChar(n % 10)]
  }

  /** The value of a string of decimal digits. */
  function ParseNat(s: string): nat
    requires forall i :: 0 <= i < |s| ==> '0' <= s[i] <= '9'
  {
    if s == [] then 0 else ParseNat(s[..|s| - 1]) * 10 + (s[|s| - 1] as int - '0' as int)
  }

  /** Reading the numeral back gives the number. */
  lemma {:induction false} NatToStringRoundTrip(n: nat)
    ensures ParseNat(NatToString(n)) == n
  {
    var s := NatToString(n);
    if n >= 10 {
      var front := NatToString(n / 10);
      NatToStringRoundTrip(n / 10);
      assert s == front + [DigitChar(n % 10)];
      assert s[..|s| - 1] == front;
      assert DigitChar(n % 10) as int - '0' as int == n % 10;
    }
  }

  /** The helper text under the text field. */
  function HelperText(text: string): string
  {
    NatToString(|text|) + "/" + NatToString(MaxChars) + " characters"
  }

  /** The counter is the text's length in decimal, which reads back as the length, then
      "/300 characters". */
  lemma HelperTextShowsLength(text: string)
    ensures HelperText(text) == NatToString(|text|) + "/" + "300" + " characters"
    ensures ParseNat(NatToString(|text|)) == |text|
  {
    MaxCharsNumeral();
    NatToStringRoundTrip(|text|);
  }

  lemma MaxCharsNumeral()
    ensures NatToString(MaxChars) == "300"
  {
    assert NatToString(3) == "3";
    assert NatToString(30) == "30";
  }

  // ---------------------------------------------------------------------------------------
  // `handleSubmit`

  /** `err.response?.data?.error || 'Something went wrong.'`: the server's message when it sent
      a non-empty one. */
  function ErrorMessage(serverError: Option<string>): (msg: string)
    ensures msg != ""
    ensures serverError.Some? && serverError.value != "" ==> msg == serverError.value
    ensures serverError.None? || serverError.value == "" ==> msg == DefaultError
  {
    if serverError.Some? && serverError.value != "" then serverError.value else DefaultError
  }

  /** How a submission ends: no access token (no request is sent), the POST saved, or the POST
      failed, with the `error` field of the server's reply when there was one. */
  datatype SubmitOutcome = TokenFailed | Saved | Rejected(serverError: Option<string>)

  /** The body of the POST /journal the form sends. */
  datatype NewEntryRequest = NewEntryRequest(text: string, selectedMood: string)

  class AddJournalForm {
    var text: string
    var mood: Mood
    var error: string
    var successMsg: string

    /** The form never shows an error and a success message at once. */
    ghost predicate Valid()
      reads this
    {
      error == "" || successMsg == ""
    }

    /** The initial state: empty text, mood "happy", no messages. */
    constructor ()
      ensures Valid()
      ensures text == "" && mood == Happy && error == "" && successMsg == ""
    {
      text := "";
      mood := Happy;
      error := "";
      successMsg := "";
    }

    /** Both messages are cleared first. Unless the token could not be obtained, the current
        text and mood are sent. A save shows the success message and resets the text and the
        mood; any failure shows the error message and keeps what was typed. */
    method HandleSubmit(outcome: SubmitOutcome) returns (sent: Option<NewEntryRequest>)
      requires Valid()
      modifies this
      ensures Valid()
      ensures outcome.TokenFailed? <==> sent.None?
      ensures sent.Some? ==> sent.value == NewEntryRequest(old(text), MoodName(old(mood)))
      ensures outcome.Saved? ==> successMsg == SavedMessage && error == "" && text == "" && mood == Happy
      ensures outcome.TokenFailed? ==>
                error == DefaultError && successMsg == "" && text == old(text) && mood == old(mood)
      ensures outcome.Rejected? ==>
                && error == ErrorMessage(outcome.serverError) && successMsg == ""
                && text == old(text) && mood == old(mood)
    {
      error := "";
      successMsg := "";
      if outcome.TokenFailed? {
        error := ErrorMessage(None);
        return None;
      }
      sent := Some(NewEntryRequest(text, MoodName(mood)));
      match outcome {
        case Saved =>
          successMsg := SavedMessage;
          text := "";
          mood := Happy;
        case Rejected(serverError) =>
          error := ErrorMessage(serverError);
      }
    }
  }
}
