/** The values of include/value.h that track their own changes, and the arithmetic of selections. */
module Values {
  import opened ValueFlags

  const INT_MIN: int := -0x8000_0000
  const INTEGER: bv32 := 0x00000002
  const SELECTION: bv32 := 0x00000007
  const NOT_NULL: bv32 := 0x08000000

  /** The flags a constructor leaves: those asked for that may be set, FITS, and the type. */
  function FirstFlags(writeToFits: bool, flags: bv32, valueType: bv32): bv32 {
    SetValueFlags(if writeToFits then FITS else 0, flags) | valueType
  }

  lemma FirstFlagsOnFields(writeToFits: bool, flags: bv32, valueType: bv32)
    requires valueType & !VALUE_MASK == 0
    ensures var w := FirstFlags(writeToFits, flags, valueType);
            && w & VALUE_MASK == valueType && w & DIRTY == 0 && w & NEED_SEND == 0 && w & CHANGED == 0
            && (w & FITS != 0 <==> writeToFits) && w & TEMPORARY == 0 && w & RANDEVOUS_WAIT == 0
            && w & SETTABLE == flags & SETTABLE
  {
    var first: bv32 := if writeToFits then FITS else 0;
    assert first & !FITS == 0;
    TypeOfFirst(first, flags, valueType);
    NoNewsOfFirst(first, flags, valueType);
    FitsOfFirst(first, flags, valueType);
    SetOfFirst(first, flags, valueType);
  }

  lemma TypeOfFirst(first: bv32, flags: bv32, valueType: bv32)
    requires valueType & !VALUE_MASK == 0 && first & !FITS == 0
    ensures (SetValueFlags(first, flags) | valueType) & VALUE_MASK == valueType
  {
  }

  lemma NoNewsOfFirst(first: bv32, flags: bv32, valueType: bv32)
    requires valueType & !VALUE_MASK == 0 && first & !FITS == 0
    ensures var w := SetValueFlags(first, flags) | valueType;
            && w & DIRTY == 0 && w & NEED_SEND == 0 && w & CHANGED == 0
            && w & TEMPORARY == 0 && w & RANDEVOUS_WAIT == 0
  {
  }

  lemma FitsOfFirst(first: bv32, flags: bv32, valueType: bv32)
    requires valueType & !VALUE_MASK == 0 && first & !FITS == 0
    ensures (SetValueFlags(first, flags) | valueType) & FITS == first
  {
  }

  lemma SetOfFirst(first: bv32, flags: bv32, valueType: bv32)
    requires valueType & !VALUE_MASK == 0 && first & !FITS == 0
    ensures (SetValueFlags(first, flags) | valueType) & SETTABLE == flags & SETTABLE
  {
  }

  /** The flags of a selection: those of an integer with the type replaced. */
  function Retyped(w: bv32): bv32 {
    (!VALUE_MASK & w) | SELECTION
  }

  lemma RetypedFirstFlags(writeToFits: bool, flags: bv32)
    ensures Retyped(FirstFlags(writeToFits, flags, INTEGER)) == FirstFlags(writeToFits, flags, SELECTION)
  {
    var w := SetValueFlags(if writeToFits then FITS else 0, flags);
    assert w & VALUE_MASK == 0;
    Retype(w);
  }

  lemma Retype(w: bv32)
    requires w & VALUE_MASK == 0
    ensures Retyped(w | INTEGER) == w | SELECTION
  {
  }

  /** The ghost fields hold what the last receiver and the last recorder saw. */
  class ValueInteger {
    var rts2Type: bv32
    var value: int
    ghost var sent: int
    ghost var recorded: int

    ghost function State(): Tracked<int>
      reads this
    {
      Tracked(rts2Type, value, sent, recorded)
    }

    constructor (writeToFits: bool, flags: bv32)
      ensures value == if flags & NOT_NULL != 0 then INT_MIN else 0
      ensures rts2Type == FirstFlags(writeToFits, flags, INTEGER)
      ensures State().Sound()
    {
      rts2Type := FirstFlags(writeToFits, flags, INTEGER);
      var initial := if flags & NOT_NULL != 0 then INT_MIN else 0;
      value, sent, recorded := initial, initial, initial;
    }

    method SetValueInteger(inValue: int) returns (ret: int)
      modifies this
      ensures ret == 0 && value == inValue && sent == old(sent) && recorded == old(recorded)
      ensures rts2Type == if inValue == old(value) then old(rts2Type) else old(rts2Type) | 0x0100_0400
      ensures State() == Step(old(State()), Set(inValue))
    {
      if value != inValue {
        rts2Type := Changed(rts2Type);
        value := inValue;
      }
      ret := 0;
    }

    method Inc() returns (was: int)
      modifies this
      ensures was == old(value)
      ensures value == old(value) + 1 && rts2Type == old(rts2Type) | 0x0100_0400
      ensures State() == Step(old(State()), Touch(was + 1))
    {
      rts2Type := Changed(rts2Type);
      was := value;
      value := value + 1;
    }

    method Dec() returns (was: int)
      modifies this
      ensures was == old(value)
      ensures value == old(value) - 1 && rts2Type == old(rts2Type) | 0x0100_0400
      ensures State() == Step(old(State()), Touch(was - 1))
    {
      rts2Type := Changed(rts2Type);
      was := value;
      value := value - 1;
    }

    method DoOpValue(op: char, oldValue: int) returns (ret: int)
      modifies this
      ensures ret == if op in "+-=" then 0 else -1
      ensures value == if op == '+' then oldValue + old(value) else if op == '-' then oldValue - old(value) else old(value)
      ensures rts2Type == if value == old(value) then old(rts2Type) else old(rts2Type) | 0x0100_0400
      ensures State() == match op
                         case '+' => Step(old(State()), Set(oldValue + old(value)))
                         case '-' => Step(old(State()), Set(oldValue - old(value)))
                         case _ => old(State())
    {
      match op {
        case '+' => ret := SetValueInteger(oldValue + value);
        case '-' => ret := SetValueInteger(oldValue - value);
        case '=' => ret := SetValueInteger(value);
        case _ => ret := -1;
      }
    }

    method SetFlags(flags: bv32)
      modifies this
      ensures rts2Type == (flags & !0x7f) | (old(rts2Type) & 0x7f)
      ensures value == old(value) && sent == old(sent) && recorded == old(recorded)
      ensures State() == Step(old(State()), Replace(flags))
    {
      rts2Type := ValueFlags.SetFlags(rts2Type, flags);
    }

    method MaskError(err: bv32)
      modifies this
      ensures rts2Type == (old(rts2Type) & !0x3000_0000) | err
      ensures value == old(value) && sent == old(sent) && recorded == old(recorded)
      ensures State() == Step(old(State()), Fault(err))
    {
      rts2Type := ValueFlags.MaskError(rts2Type, err);
    }

    method ResetNeedSend()
      modifies this
      ensures rts2Type == old(rts2Type) & !0x0100_0000 && sent == value == old(value) && recorded == old(recorded)
      ensures State() == Step(old(State()), Mark(Sent))
    {
      rts2Type := rts2Type & !NEED_SEND;
      sent := value;
    }

    method ResetValueChanged()
      modifies this
      ensures rts2Type == old(rts2Type) & !0x0000_0400 && recorded == value == old(value) && sent == old(sent)
      ensures State() == Step(old(State()), Mark(Unchange))
    {
      rts2Type := rts2Type & !CHANGED;
      recorded := value;
    }
  }

  class ValueAltAz {
    var rts2Type: bv32
    var alt: real
    var az: real
    ghost var sent: (real, real)
    ghost var recorded: (real, real)

    ghost function State(): Tracked<(real, real)>
      reads this
    {
      Tracked(rts2Type, (alt, az), sent, recorded)
    }

    method SetAlt(inAlt: real)
      modifies this
      ensures alt == inAlt && az == old(az)
      ensures State() == Step(old(State()), Set((inAlt, old(az))))
    {
      if alt != inAlt {
        alt := inAlt;
        rts2Type := Changed(rts2Type);
      }
    }

    method SetAz(inAz: real)
      modifies this
      ensures az == inAz && alt == old(alt)
      ensures State() == Step(old(State()), Set((old(alt), inAz)))
    {
      if az != inAz {
        az := inAz;
        rts2Type := Changed(rts2Type);
      }
    }

    /** Two setters one after the other are one setter of the pair. */
    method SetValueAltAz(inAlt: real, inAz: real) returns (ret: int)
      modifies this
      ensures ret == 0 && alt == inAlt && az == inAz
      ensures rts2Type == if inAlt == old(alt) && inAz == old(az) then old(rts2Type) else old(rts2Type) | 0x0100_0400
      ensures State() == Step(old(State()), Set((inAlt, inAz)))
    {
      ChangedTwice(rts2Type);
      SetAlt(inAlt);
      SetAz(inAz);
      ret := 0;
    }
  }

  /* ---- Selections ---- */

  ghost predicate InRange(n: nat, index: int) {
    0 <= index < n
  }

  /** Where `name` stands first, and -2 when it is not there. */
  ghost predicate IsIndex(names: seq<string>, name: string, index: int) {
    if name in names then
      InRange(|names|, index) && names[index] == name && name !in names[..index]
    else
      index == -2
  }

  const SIZE_T: int := 0x1_0000_0000_0000_0000

  /** The sum is an int, the number of entries a size_t, and so is their remainder. */
  function Plus(n: nat, was: int, operand: int): (index: int)
    requires n > 0
    ensures InRange(n, index)
  {
    ((was + operand) % SIZE_T) % n
  }

  /** The first of `x`, `x + n`, `x + 2 n`, ... that is not negative. */
  function Lift(n: nat, x: int): (y: int)
    requires n > 0 || x >= 0
    ensures y >= 0 && (x < n ==> y < n) && (x >= 0 ==> y == x)
    decreases if x < 0 then 0 - x else 0
  {
    if x < 0 then Lift(n, x + n) else x
  }

  lemma {:induction false} LiftAdds(n: nat, x: int) returns (k: nat)
    requires n > 0 || x >= 0
    ensures Lift(n, x) == x + k * n && (k > 0 ==> Lift(n, x) < n)
    decreases if x < 0 then 0 - x else 0
  {
    if x < 0 {
      k := LiftAdds(n, x + n);
      k := k + 1;
    } else {
      k := 0;
    }
  }

  /** Plus goes forward and minus back by the operand, around the list. */
  lemma PlusAndMinus(n: nat, was: int, operand: int)
    requires InRange(n, was) && InRange(n, operand) && n <= 0x7fff_ffff
    ensures Plus(n, was, operand) == if was + operand < n then was + operand else was + operand - n
    ensures Minus(n, was, operand) == if was >= operand then was - operand else was - operand + n
  {
    assert (was + operand) % SIZE_T == was + operand;
    Remainder(n, was + operand);
  }

  function Minus(n: nat, was: int, operand: int): int
    requires n > 0 || was >= operand
  {
    Lift(n, was - operand)
  }

  /** Adding and then subtracting one operand gives the selection back. */
  lemma MinusUndoesPlus(n: nat, was: int, operand: int)
    requires InRange(n, was) && InRange(n, operand) && n <= 0x7fff_ffff
    ensures InRange(n, Minus(n, was, operand))
    ensures Minus(n, Plus(n, was, operand), operand) == was
    ensures Plus(n, Minus(n, was, operand), operand) == was
  {
    assert (was + operand) % SIZE_T == was + operand;
    assert (Minus(n, was, operand) + operand) % SIZE_T == Minus(n, was, operand) + operand;
    Remainder(n, was + operand);
    Remainder(n, Minus(n, was, operand) + operand);
  }

  lemma Remainder(n: nat, x: int)
    requires 0 <= x < 2 * n
    ensures x % n == if x < n then x else x - n
  {
    if x >= n {
      assert x == n * 1 + (x - n);
    }
  }

  class ValueSelection {
    const number: ValueInteger
    var names: seq<string>

    /** The index is that of an entry. It is not at first, when there are none, nor when there are fewer
        entries than before, nor before a value that must not be null is set. */
    ghost predicate InList()
      reads this, number
    {
      InRange(|names|, number.value)
    }

    constructor (writeToFits: bool, flags: bv32)
      ensures fresh(number) && names == []
      ensures number.value == if flags & NOT_NULL != 0 then INT_MIN else 0
      ensures number.rts2Type == Retyped(FirstFlags(writeToFits, flags, INTEGER))
      ensures number.State().Sound()
    {
      number := new ValueInteger(writeToFits, flags);
      names := [];
      new;
      number.rts2Type := Retyped(number.rts2Type);
    }

    method AddSelVal(name: string)
      modifies this
      ensures names == old(names) + [name]
      ensures old(InList()) ==> InList()
    {
      names := names + [name];
    }

    /** Leaves the index where it was. */
    method Clear()
      modifies this
      ensures names == [] && !InList()
    {
      names := [];
    }

    /** The entries of another selection from `index` on. The index of this one stays, so it is in the list
        exactly if it was an index of what was taken over. */
    method DuplicateSelVals(other: ValueSelection, index: int)
      requires other != this
      modifies this
      ensures names == if index <= 0 then other.names else if index < |other.names| then other.names[index..] else []
      ensures InList() <==> 0 <= number.value < |other.names| - (if index < 0 then 0 else index)
    {
      Clear();
      var skip := index;
      for i := 0 to |other.names|
        invariant skip == if index <= 0 then index else if i < index then index - i else 0
        invariant names == if index <= 0 then other.names[..i] else if i < index then [] else other.names[index..i]
      {
        if skip > 0 {
          skip := skip - 1;
        } else {
          AddSelVal(other.names[i]);
        }
      }
    }

    method SetValueInteger(inValue: int) returns (ret: int)
      modifies number
      ensures ret == (if 0 <= inValue < |names| then 0 else -1) && (ret == 0 ==> number.value == inValue)
      ensures number.State() == if ret == 0 then Step(old(number.State()), Set(inValue)) else old(number.State())
      ensures ret == 0 || old(InList()) ==> InList()
    {
      if inValue < 0 || inValue >= |names| {
        return -1;
      }
      ret := number.SetValueInteger(inValue);
    }

    method GetSelIndex(inVal: string) returns (index: int)
      ensures IsIndex(names, inVal, index) && (inVal !in names ==> index == -2)
      ensures inVal in names ==>
                0 <= index < |names| && names[index] == inVal && forall i :: 0 <= i < index ==> names[i] != inVal
    {
      var i := 0;
      while i < |names|
        invariant 0 <= i <= |names|
        invariant inVal !in names[..i]
      {
        if names[i] == inVal {
          return i;
        }
        i := i + 1;
      }
      return -2;
    }

    method SetSelIndex(name: string) returns (ret: int)
      modifies number
      ensures ret == if name in names then 0 else -1
      ensures ret == 0 ==> IsIndex(names, name, number.value)
      ensures number.State() == if ret == 0 then Step(old(number.State()), Set(number.value)) else old(number.State())
    {
      var i := GetSelIndex(name);
      if i < 0 {
        return -1;
      }
      var _ := SetValueInteger(i);
      ret := 0;
    }

    /** `this` holds the operand and receives the result. With no entries a sum has no remainder, and a
        negative difference is lifted for ever. */
    method DoOpValue(op: char, oldValue: int) returns (ret: int)
      requires names == [] ==> op != '+' && (op == '-' ==> oldValue >= number.value)
      modifies number
      ensures ret == match op
                     case '+' => 0
                     case '-' => if oldValue - old(number.value) < |names| then 0 else -1
                     case '=' => if old(InList()) then 0 else -1
                     case _ => -1
      ensures op == '+' ==> number.value == ((oldValue + old(number.value)) % 0x1_0000_0000_0000_0000) % |names|
      ensures op == '-' && ret == 0 ==>
                && 0 <= number.value < |names|
                && exists k: nat :: number.value == oldValue - old(number.value) + k * |names|
      ensures number.State() == match op
                                case '+' => Step(old(number.State()), Set(Plus(|names|, oldValue, old(number.value))))
                                case '-' =>
                                  if ret == 0
                                  then Step(old(number.State()), Set(Minus(|names|, oldValue, old(number.value))))
                                  else old(number.State())
                                case _ => old(number.State())
    {
      match op {
        case '+' =>
          ret := SetValueInteger(((oldValue + number.value) % SIZE_T) % |names|);
        case '-' =>
          var newVal := oldValue - number.value;
          ghost var times := LiftAdds(|names|, newVal);
          while newVal < 0
            invariant Lift(|names|, newVal) == Minus(|names|, oldValue, number.value)
            decreases 0 - newVal
          {
            newVal := newVal + |names|;
          }
          ret := SetValueInteger(newVal);
        case '=' =>
          ret := SetValueInteger(number.value);
        case _ =>
          ret := -1;
      }
    }
  }
}
