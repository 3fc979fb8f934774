/**
 * The six-slot input of the email verification page. Each slot holds at most one digit;
 * typing a digit fills a slot and moves the focus on, backspace in an empty slot clears
 * the slot before it, and the code is submitted as soon as every slot is filled.
 *
 * A state update (`setCode`) replaces the slot array by an edited copy, so the handlers
 * below allocate a new array rather than writing into the one they were given. The
 * auto-submit effect runs after every update; the handlers return what it submits.
 */
module EmailVerificationPage {
  import opened Wrappers
  import JsString

  const CodeLength: nat := 6

  /** What a slot may hold: nothing, or one ASCII digit. */
  predicate IsSlot(v: string)
  {
    v == "" || (|v| == 1 && JsString.IsAsciiDigit(v[0]))
  }

  /** `/^\d*$/.test(value)`. */
  predicate AllDigits(value: string)
  {
    forall i :: 0 <= i < |value| ==> JsString.IsAsciiDigit(value[i])
  }

  /** `value.slice(-1)`: the last character, or nothing. */
  function LastChar(value: string): string
  {
    if value == [] then "" else [value[|value| - 1]]
  }

  /** `code.every(digit => digit !== '')`. */
  predicate Filled(slots: seq<string>)
  {
    forall i :: 0 <= i < |slots| ==> slots[i] != ""
  }

  /** `code.join('')`. */
  function Join(slots: seq<string>): string
  {
    if slots == [] then "" else Join(slots[..|slots| - 1]) + slots[|slots| - 1]
  }

  /** Joining one-character slots gives one character per slot, in slot order. */
  lemma {:induction false} JoinSingles(slots: seq<string>)
    requires forall i :: 0 <= i < |slots| ==> |slots[i]| == 1
    ensures |Join(slots)| == |slots|
    ensures forall i :: 0 <= i < |slots| ==> Join(slots)[i] == slots[i][0]
  {
    if slots != [] {
      var init := slots[..|slots| - 1];
      JoinSingles(init);
      assert forall i :: 0 <= i < |init| ==> init[i] == slots[i];
    }
  }

  /** Joining slots of at most one digit each gives one digit per filled slot; all six only when all are filled. */
  lemma {:induction false} JoinSlots(slots: seq<string>)
    requires forall i :: 0 <= i < |slots| ==> IsSlot(slots[i])
    ensures AllDigits(Join(slots))
    ensures |Join(slots)| <= |slots|
    ensures |Join(slots)| == |slots| <==> Filled(slots)
  {
    if slots != [] {
      var init, last := slots[..|slots| - 1], slots[|slots| - 1];
      JoinSlots(init);
      assert forall i :: 0 <= i < |init| ==> init[i] == slots[i];
      assert Join(slots) == Join(init) + last;
      if Filled(slots) {
        assert Filled(init);
      } else if Filled(init) {
        assert last == "";
      }
    }
  }

  class CodeInput {
    /** The `code` state: one string per slot. */
    var code: array<string>
    /** The slot whose input element has the focus. */
    var focused: nat

    ghost predicate Valid()
      reads this, code
    {
      && code.Length == CodeLength
      && (forall i :: 0 <= i < code.Length ==> IsSlot(code[i]))
      && focused < CodeLength
    }

    /** `useState(['','','','','',''])`, with the first slot focused. */
    constructor ()
      ensures Valid()
      ensures code[..] == ["", "", "", "", "", ""] && focused == 0
    {
      code := new string[CodeLength](_ => "");
      focused := 0;
      new;
      assert code[..] == ["", "", "", "", "", ""];
    }

    /**
     * What the auto-submit effect sends for the current code: `code.join('')` once every
     * slot is filled, nothing before. The code sent is six ASCII digits.
     */
    function Submission(): (sent: Option<string>)
      requires Valid()
      reads this, code
      ensures sent.Some? <==> Filled(code[..])
      ensures sent.Some? ==> && sent.value == Join(code[..])
                             && |sent.value| == CodeLength && AllDigits(sent.value)
                             && forall i :: 0 <= i < CodeLength ==> sent.value[i] == code[i][0]
    {
      if Filled(code[..]) then
        JoinSingles(code[..]);
        Some(Join(code[..]))
      else None
    }

    /**
     * What `handleSubmit` sends when the form is submitted with its button: `code.join('')`
     * whatever the slots hold, so a partly filled code is sent as the shorter string of
     * its digits. The auto-submit effect calls the same handler once every slot is filled.
     */
    function FormSubmission(): (sent: string)
      requires Valid()
      reads this, code
      ensures AllDigits(sent) && |sent| <= CodeLength
      ensures |sent| == CodeLength <==> Filled(code[..])
      ensures Filled(code[..]) ==> Submission() == Some(sent)
    {
      JoinSlots(code[..]);
      Join(code[..])
    }

    /** A copy of the current slots, `[...code]`. */
    method CopyCode() returns (copy: array<string>)
      requires Valid()
      ensures fresh(copy) && copy[..] == code[..]
    {
      copy := new string[CodeLength];
      forall i | 0 <= i < CodeLength {
        copy[i] := code[i];
      }
    }

    /**
     * `handleChange(index, value)`: a value of digits only puts its last character into
     * slot `index` (an empty value empties it) and, when it is not empty and there is a
     * next slot, moves the focus there; any other value is ignored.
     */
    method HandleChange(index: nat, value: string) returns (sent: Option<string>)
      requires Valid() && index < CodeLength
      modifies this
      ensures Valid()
      ensures !AllDigits(value) ==> code == old(code) && code[..] == old(code[..]) && focused == old(focused)
      ensures AllDigits(value) ==> fresh(code) && code[..] == old(code[..])[index := LastChar(value)]
      ensures AllDigits(value) && value != "" && index < CodeLength - 1 ==> focused == index + 1
      ensures !(AllDigits(value) && value != "" && index < CodeLength - 1) ==> focused == old(focused)
      ensures sent == if AllDigits(value) then Submission() else None
    {
      if !AllDigits(value) {
        sent := None;
        return;
      }
      var newCode := CopyCode();
      newCode[index] := LastChar(value);
      code := newCode;
      if value != "" && index < CodeLength - 1 {
        focused := index + 1;
      }
      sent := Submission();
    }

    /**
     * `handleKeyDown(index, event)`: backspace in an empty slot other than the first
     * clears the slot before it and moves the focus there; any other key changes nothing.
     * Nothing is ever submitted after it, since it leaves a slot empty.
     */
    method HandleKeyDown(index: nat, key: string) returns (sent: Option<string>)
      requires Valid() && index < CodeLength
      modifies this
      ensures Valid()
      ensures key == "Backspace" && old(code[index]) == "" && index > 0 ==>
                fresh(code) && code[..] == old(code[..])[index - 1 := ""] && focused == index - 1
      ensures !(key == "Backspace" && old(code[index]) == "" && index > 0) ==>
                code == old(code) && code[..] == old(code[..]) && focused == old(focused)
      ensures sent.None?
    {
      if !(key == "Backspace" && code[index] == "" && index > 0) {
        sent := None;
        return;
      }
      var newCode := CopyCode();
      newCode[index - 1] := "";
      code := newCode;
      focused := index - 1;
      assert !Filled(code[..]) by {
        assert code[..][index - 1] == "";
      }
      sent := Submission();
    }
  }

  /** Typing the six digits of a code into a fresh input, one slot after another, submits exactly that code. */
  method TypeCode(digits: string) returns (sent: Option<string>)
    requires |digits| == CodeLength && AllDigits(digits)
    ensures sent == Some(digits)
  {
    var input := new CodeInput();
    var i := 0;
    sent := None;
    assert input.code[..][0] == "";
    while i < CodeLength
      invariant 0 <= i <= CodeLength
      invariant input.Valid() && input.focused == (if i == 0 then 0 else if i < CodeLength then i else CodeLength - 1)
      invariant forall k :: 0 <= k < i ==> input.code[k] == [digits[k]]
      invariant forall k :: i <= k < CodeLength ==> input.code[k] == ""
      invariant i == CodeLength ==> sent == input.Submission()
      invariant i < CodeLength ==> !Filled(input.code[..])
    {
      sent := input.HandleChange(i, [digits[i]]);
      i := i + 1;
      if i < CodeLength {
        assert input.code[..][i] == "";
      }
    }
    assert Filled(input.code[..]);
    var s := input.Submission();
    assert |s.value| == |digits|;
    assert forall k :: 0 <= k < CodeLength ==> s.value[k] == digits[k];
    assert s.value == digits;
  }
}
