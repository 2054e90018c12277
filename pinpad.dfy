/**
 * The PIN entry buffer of the keypad (components/PinPad.tsx): the `pin`
 * string state, which the digit keys extend up to eight characters, the
 * delete key shortens, and the submit key hands to `onSubmit` once it is
 * long enough. Rendering, and the `loading` flag that only disables the
 * buttons, are not modelled.
 */
module PinEntry {
  import opened Types

  /** The keypad shows eight dots and accepts no more digits than that. */
  const MaxLength := 8

  /** The default of the `minLength` property. */
  const DefaultMinLength := 4

  /** handlePress on a given PIN. */
  function Press(pin: string, digit: char): (r: string)
    ensures |pin| <= MaxLength ==> |r| <= MaxLength
    ensures |pin| <= |r| <= |pin| + 1 && r[..|pin|] == pin
  {
    if |pin| < MaxLength then pin + [digit] else pin
  }

  /** handleDelete: `slice(0, -1)`, which leaves an empty string empty. */
  function Delete(pin: string): (r: string)
    ensures |r| == if pin == [] then 0 else |pin| - 1
    ensures r == pin[..|r|]
  {
    if pin == [] then [] else pin[..|pin| - 1]
  }

  /** handleSubmit: the PIN passed to `onSubmit`, if the call happens. */
  function Submit(pin: string, minLength: int): (r: Option<string>)
    ensures r.Some? <==> |pin| >= minLength
    ensures r.Some? ==> r.value == pin
  {
    if |pin| >= minLength then Some(pin) else None
  }

  /** A key of the pad. */
  datatype Key = DigitKey(digit: char) | DeleteKey

  /** The PIN after a sequence of key presses. */
  function Type(pin: string, keys: seq<Key>): string
    decreases |keys|
  {
    if keys == [] then pin
    else
      var next := match keys[0]
        case DigitKey(d) => Press(pin, d)
        case DeleteKey => Delete(pin);
      Type(next, keys[1..])
  }

  /** No sequence of keys takes the PIN past eight characters. */
  lemma {:induction false} TypeBounded(pin: string, keys: seq<Key>)
    requires |pin| <= MaxLength
    ensures |Type(pin, keys)| <= MaxLength
    decreases |keys|
  {
    if keys != [] {
      var next := match keys[0]
        case DigitKey(d) => Press(pin, d)
        case DeleteKey => Delete(pin);
      TypeBounded(next, keys[1..]);
    }
  }

  /** The key presses that type the digits `ds`. */
  function Digits(ds: string): seq<Key>
    ensures |Digits(ds)| == |ds|
    ensures forall i :: 0 <= i < |ds| ==> Digits(ds)[i] == DigitKey(ds[i])
  {
    if ds == [] then [] else [DigitKey(ds[0])] + Digits(ds[1..])
  }

  /** Typing digits gives the digits typed, cut off after the eighth. */
  lemma {:induction false} TypeDigits(pin: string, ds: string)
    requires |pin| <= MaxLength
    ensures var n := if |pin| + |ds| <= MaxLength then |ds| else MaxLength - |pin|;
      Type(pin, Digits(ds)) == pin + ds[..n]
    decreases |ds|
  {
    if ds != [] {
      assert Digits(ds)[1..] == Digits(ds[1..]);
      if |pin| < MaxLength {
        TypeDigits(pin + [ds[0]], ds[1..]);
        var n := if |pin| + |ds| <= MaxLength then |ds| else MaxLength - |pin|;
        assert ds[..n] == [ds[0]] + ds[1..][..n - 1];
      } else {
        TypeDigits(pin, ds[1..]);
      }
    }
  }

  /** Delete undoes a digit that was accepted. */
  lemma PressThenDelete(pin: string, digit: char)
    requires |pin| < MaxLength
    ensures Delete(Press(pin, digit)) == pin
  {
    assert (pin + [digit])[..|pin|] == pin;
  }

  /** A full PIN ignores further digits. */
  lemma PressWhenFull(pin: string, digit: char)
    requires |pin| >= MaxLength
    ensures Press(pin, digit) == pin
  {
  }

  /** With the default, exactly the PINs of four characters or more are submitted. */
  lemma SubmitDefault(pin: string)
    ensures Submit(pin, DefaultMinLength).Some? <==> |pin| >= 4
  {
  }

  /** The keypad's state. */
  class PinPad {
    var pin: string
    const minLength: int

    predicate Valid()
      reads this
    {
      |pin| <= MaxLength
    }

    /** A pad starts empty; `minLength` is 4 unless the caller passes one. */
    constructor (minLength: Option<int>)
      ensures pin == [] && Valid()
      ensures this.minLength == if minLength.Some? then minLength.value else DefaultMinLength
    {
      pin := [];
      this.minLength := if minLength.Some? then minLength.value else DefaultMinLength;
    }

    method HandlePress(digit: char)
      modifies this`pin
      ensures pin == Press(old(pin), digit)
      ensures old(Valid()) ==> Valid()
    {
      if |pin| < MaxLength {
        var newPin := pin + [digit];
        pin := newPin;
      }
    }

    method HandleDelete()
      modifies this`pin
      ensures pin == Delete(old(pin))
      ensures old(Valid()) ==> Valid()
    {
      pin := if pin == [] then [] else pin[..|pin| - 1];
    }

    /** Answers the argument of the `onSubmit` call, if one is made; the PIN stays as it is. */
    method HandleSubmit() returns (submitted: Option<string>)
      ensures submitted == Submit(pin, minLength)
    {
      if |pin| >= minLength {
        submitted := Some(pin);
      } else {
        submitted := None;
      }
    }
  }
}
