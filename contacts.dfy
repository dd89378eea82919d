/** A contact's phone number (TwilioUserData, cabot_alert_twilio/models.py:137-148)
    and the list comprehension that turns the contacts found for a set of
    users into the numbers to dial or text (models.py:71 and 118). */
module Contacts {
  import opened Wrappers

  /** True when the stored text starts with a plus sign. A missing number
      reads as the text "None", which does not. */
  predicate HasPlus(p: Option<string>)
  {
    p.Some? && |p.value| > 0 && p.value[0] == '+'
  }

  /** The number as `save` stores it: one leading plus sign removed. */
  function Stored(p: Option<string>): Option<string>
  {
    if HasPlus(p) then Some(p.value[1..]) else p
  }

  /** `'+%s' % phone_number`: a plus sign before the stored text. */
  function WithPlus(p: Option<string>): (r: string)
    ensures |r| >= 1 && r[0] == '+'
    ensures p.None? ==> r == "+None"
  {
    "+" + match p case None => "None" case Some(s) => s
  }

  /** Saving removes exactly one leading plus sign and changes nothing else:
      the stored number with a plus put back in front is the number given. */
  lemma StoredStripsOnePlus(p: Option<string>)
    ensures HasPlus(p) ==> Stored(p).Some? && "+" + Stored(p).value == p.value
    ensures !HasPlus(p) ==> Stored(p) == p
  {
    if HasPlus(p) {
      assert "+" + p.value[1..] == p.value;
    }
  }

  /** `str(phone_number)` in `save` raises under Python 2 when the stored
      text holds a character outside ASCII: `str` of a unicode value encodes
      it as ASCII. */
  predicate SaveRaises(p: Option<string>)
  {
    p.Some? && exists i :: 0 <= i < |p.value| && p.value[i] > '\U{7F}'
  }

  /** A number saved with or without its plus sign reads back with exactly one. */
  lemma SaveThenRead(digits: string)
    requires |digits| == 0 || digits[0] != '+'
    ensures WithPlus(Stored(Some(digits))) == "+" + digits
    ensures WithPlus(Stored(Some("+" + digits))) == "+" + digits
  {
    assert ("+" + digits)[1..] == digits;
  }

  /** The number in the plugin's tests, saved with or without the plus sign. */
  lemma SaveThenReadExample()
    ensures !SaveRaises(Some("15554443333")) && !SaveRaises(Some("+15554443333"))
    ensures WithPlus(Stored(Some("15554443333"))) == "+15554443333"
    ensures WithPlus(Stored(Some("+15554443333"))) == "+15554443333"
  {
    SaveThenRead("15554443333");
  }

  /** The per-user phone-number record. */
  class TwilioUserData {
    var phoneNumber: Option<string>

    constructor (phoneNumber: Option<string>)
      ensures this.phoneNumber == phoneNumber
    {
      this.phoneNumber := phoneNumber;
    }

    /** `save`: strips one leading plus sign in place before the row is
        written, or raises, leaving the number as it was, when the number
        is not ASCII text. */
    method Save() returns (raised: bool)
      modifies this
      ensures raised <==> SaveRaises(old(phoneNumber))
      ensures phoneNumber == if raised then old(phoneNumber) else Stored(old(phoneNumber))
      ensures !raised && old(phoneNumber).Some? ==>
        PrefixedPhoneNumber() == if HasPlus(old(phoneNumber)) then old(phoneNumber).value else "+" + old(phoneNumber).value
    {
      raised := SaveRaises(phoneNumber);
      if raised {
        return;
      }
      StoredStripsOnePlus(phoneNumber);
      if HasPlus(phoneNumber) {
        phoneNumber := Some(phoneNumber.value[1..]);
      }
    }

    /** `prefixed_phone_number`. */
    function PrefixedPhoneNumber(): (r: string)
      reads this
      ensures |r| >= 1 && r[0] == '+'
      ensures phoneNumber.Some? ==> r[1..] == phoneNumber.value
      ensures phoneNumber.None? ==> r == "+None"
    {
      WithPlus(phoneNumber)
    }
  }

  /** The truth value of a stored number: neither missing nor empty. */
  predicate HasNumber(p: Option<string>)
  {
    p.Some? && p.value != ""
  }

  /** `[m.prefixed_phone_number for m in mobiles if m.phone_number]`, for the
      stored numbers of the contacts found, in the order they are found. */
  function Mobiles(numbers: seq<Option<string>>): (r: seq<string>)
    ensures |r| <= |numbers|
  {
    if numbers == [] then []
    else (if HasNumber(numbers[0]) then [WithPlus(numbers[0])] else []) + Mobiles(numbers[1..])
  }

  /** Every number kept is a plus sign followed by at least one character. */
  lemma {:induction false} MobilesArePrefixed(numbers: seq<Option<string>>)
    ensures forall i :: 0 <= i < |Mobiles(numbers)| ==> |Mobiles(numbers)[i]| >= 2 && Mobiles(numbers)[i][0] == '+'
  {
    if numbers != [] {
      MobilesArePrefixed(numbers[1..]);
    }
  }

  /** A number is dialled or texted exactly when some contact has it stored. */
  lemma {:induction false} MobilesMembers(numbers: seq<Option<string>>, m: string)
    ensures m in Mobiles(numbers)
      <==> exists j :: 0 <= j < |numbers| && HasNumber(numbers[j]) && m == WithPlus(numbers[j])
  {
    if numbers != [] {
      MobilesMembers(numbers[1..], m);
      var head := if HasNumber(numbers[0]) then [WithPlus(numbers[0])] else [];
      assert Mobiles(numbers) == head + Mobiles(numbers[1..]);
      if exists j :: 1 <= j < |numbers| && HasNumber(numbers[j]) && m == WithPlus(numbers[j]) {
        var j :| 1 <= j < |numbers| && HasNumber(numbers[j]) && m == WithPlus(numbers[j]);
        assert numbers[1..][j - 1] == numbers[j];
      }
      if exists j :: 0 <= j < |numbers| - 1 && HasNumber(numbers[1..][j]) && m == WithPlus(numbers[1..][j]) {
        var j :| 0 <= j < |numbers| - 1 && HasNumber(numbers[1..][j]) && m == WithPlus(numbers[1..][j]);
        assert numbers[j + 1] == numbers[1..][j];
      }
    }
  }

  /** The filter keeps the order of the list it is given: filtering two lists
      one after the other is filtering their concatenation. */
  lemma {:induction false} MobilesAppend(a: seq<Option<string>>, b: seq<Option<string>>)
    ensures Mobiles(a + b) == Mobiles(a) + Mobiles(b)
  {
    if a == [] {
      assert a + b == b;
    } else {
      var h := if HasNumber(a[0]) then [WithPlus(a[0])] else [];
      assert (a + b)[0] == a[0];
      assert (a + b)[1..] == a[1..] + b;
      assert Mobiles(a + b) == h + Mobiles(a[1..] + b);
      MobilesAppend(a[1..], b);
      assert Mobiles(a) == h + Mobiles(a[1..]);
    }
  }

  /** When every contact has a number, every one of them is kept, in order. */
  lemma {:induction false} MobilesAllNumbered(numbers: seq<Option<string>>)
    requires forall j :: 0 <= j < |numbers| ==> HasNumber(numbers[j])
    ensures |Mobiles(numbers)| == |numbers|
    ensures forall j :: 0 <= j < |numbers| ==> Mobiles(numbers)[j] == WithPlus(numbers[j])
  {
    if numbers != [] {
      MobilesAllNumbered(numbers[1..]);
    }
  }
}
