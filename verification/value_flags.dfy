/** The 32-bit flag word of include/value.h and the changes its dirty bits announce.

The word packs seventeen fields. `Flags` holds the same fields as a record, each where it stands in
the word; the two are related one to one, and an operation on the word is described by the entries
of the record it changes. */
module ValueFlags {
  const VALUE_MASK: bv32 := 0x0000007f
  const FITS: bv32 := 0x00000100
  const CHANGED: bv32 := 0x00000400
  const NEED_SEND: bv32 := 0x01000000
  const WRITABLE: bv32 := 0x02000000
  const TEMPORARY: bv32 := 0x04000000
  const ERROR_MASK: bv32 := 0x30000000
  const RANDEVOUS_WAIT: bv32 := 0x40000000
  const GROUP_MASK: bv32 := 0x006f0000
  // when either bit is set there is news for somebody
  const DIRTY: bv32 := 0x01000400
  // what the flags given to a constructor may set
  const SETTABLE: bv32 := 0x3afffa80

  datatype Flags = Flags(
    base: bv32, extension: bv32, debug: bv32, fits: bv32, devicePrefix: bv32, modified: bv32,
    recordChange: bv32, when: bv32, display: bv32, fitsHeaders: bv32, autosave: bv32, needSend: bv32,
    writable: bv32, temporary: bv32, notNull: bv32, error: bv32, randevous: bv32)
  {
    ghost predicate Fits() {
      && base & !0x0000000f == 0
      && extension & !0x00000070 == 0
      && debug & !0x00000080 == 0
      && fits & !0x00000100 == 0
      && devicePrefix & !0x00000200 == 0
      && modified & !0x00000400 == 0
      && recordChange & !0x00000800 == 0
      && when & !0x0000f000 == 0
      && display & !0x003f0000 == 0
      && fitsHeaders & !0x00400000 == 0
      && autosave & !0x00800000 == 0
      && needSend & !0x01000000 == 0
      && writable & !0x02000000 == 0
      && temporary & !0x04000000 == 0
      && notNull & !0x08000000 == 0
      && error & !0x30000000 == 0
      && randevous & !0xc0000000 == 0
    }
  }

  function Decode(w: bv32): Flags {
    Flags(w & 0x0000000f, w & 0x00000070, w & 0x00000080, w & 0x00000100, w & 0x00000200, w & 0x00000400,
          w & 0x00000800, w & 0x0000f000, w & 0x003f0000, w & 0x00400000, w & 0x00800000, w & 0x01000000,
          w & 0x02000000, w & 0x04000000, w & 0x08000000, w & 0x30000000, w & 0xc0000000)
  }

  function Encode(f: Flags): bv32 {
    f.base | f.extension | f.debug | f.fits | f.devicePrefix | f.modified
    | f.recordChange | f.when | f.display | f.fitsHeaders | f.autosave | f.needSend
    | f.writable | f.temporary | f.notNull | f.error | f.randevous
  }

  /* ---- The word is a record ---- */

  lemma DecodeEncode(f: Flags)
    requires f.Fits()
    ensures Decode(Encode(f)) == f
  {
  }

  lemma EncodeDecode(w: bv32)
    ensures Decode(w).Fits() && Encode(Decode(w)) == w
  {
  }

  /* ---- Operations on the word ---- */

  function SetFlags(w: bv32, flags: bv32): bv32 {
    (flags & !VALUE_MASK) | (w & VALUE_MASK)
  }

  function MaskError(w: bv32, err: bv32): bv32 {
    (w & !ERROR_MASK) | err
  }

  function SetValueFlags(w: bv32, flags: bv32): bv32 {
    w | (SETTABLE & flags)
  }

  function Changed(w: bv32): bv32 {
    w | (CHANGED | NEED_SEND)
  }

  datatype Flag = ToFits | Writable | ReadOnly | Temporary | Randevous | Change | Unchange | Sent

  /** `setWriteToFits`, `setWritable`, `setReadOnly`, `setTemporary`, `setRandevous`, `changed`,
  `resetValueChanged` and `resetNeedSend`. */
  function OnWord(w: bv32, flag: Flag): bv32 {
    match flag
    case ToFits => w | FITS
    case Writable => w | WRITABLE
    case ReadOnly => w & !WRITABLE
    case Temporary => w | TEMPORARY
    case Randevous => w | RANDEVOUS_WAIT
    case Change => Changed(w)
    case Unchange => w & !CHANGED
    case Sent => w & !NEED_SEND
  }

  function OnRecord(f: Flags, flag: Flag): Flags {
    match flag
    case ToFits => f.(fits := FITS)
    case Writable => f.(writable := WRITABLE)
    case ReadOnly => f.(writable := 0)
    case Temporary => f.(temporary := TEMPORARY)
    case Randevous => f.(randevous := f.randevous | RANDEVOUS_WAIT)
    case Change => f.(modified := CHANGED, needSend := NEED_SEND)
    case Unchange => f.(modified := 0)
    case Sent => f.(needSend := 0)
  }

  /** Every operation changes its own entries of the record and no other. */
  lemma WordRefinesRecord(w: bv32, flag: Flag)
    ensures Decode(OnWord(w, flag)) == OnRecord(Decode(w), flag)
  {
    match flag
    case ToFits => RaiseFits(w);
    case Writable => RaiseWritable(w);
    case ReadOnly => LowerWritable(w);
    case Temporary => RaiseTemporary(w);
    case Randevous => RaiseRandevous(w);
    case Change => RaiseChanged(w);
    case Unchange => LowerChanged(w);
    case Sent => LowerNeedSend(w);
  }

  lemma RaiseFits(w: bv32)
    ensures Decode(OnWord(w, ToFits)) == OnRecord(Decode(w), ToFits)
  {
  }

  lemma RaiseWritable(w: bv32)
    ensures Decode(OnWord(w, Writable)) == OnRecord(Decode(w), Writable)
  {
  }

  lemma LowerWritable(w: bv32)
    ensures Decode(OnWord(w, ReadOnly)) == OnRecord(Decode(w), ReadOnly)
  {
  }

  lemma RaiseTemporary(w: bv32)
    ensures Decode(OnWord(w, Temporary)) == OnRecord(Decode(w), Temporary)
  {
  }

  lemma RaiseRandevous(w: bv32)
    ensures Decode(OnWord(w, Randevous)) == OnRecord(Decode(w), Randevous)
  {
  }

  lemma RaiseChanged(w: bv32)
    ensures Decode(OnWord(w, Change)) == OnRecord(Decode(w), Change)
  {
  }

  lemma LowerChanged(w: bv32)
    ensures Decode(OnWord(w, Unchange)) == OnRecord(Decode(w), Unchange)
  {
  }

  lemma LowerNeedSend(w: bv32)
    ensures Decode(OnWord(w, Sent)) == OnRecord(Decode(w), Sent)
  {
  }

  /** Everything but the type comes from the argument. */
  lemma SetFlagsOnFields(w: bv32, flags: bv32)
    ensures Decode(SetFlags(w, flags)) == Decode(flags).(base := Decode(w).base, extension := Decode(w).extension)
  {
  }

  /** Flags given to a constructor never touch the type, the dirty bits, or what only later calls set; all other
  fields are added. */
  lemma SetValueFlagsOnFields(w: bv32, flags: bv32)
    ensures var was, with := Decode(w), Decode(flags);
            Decode(SetValueFlags(w, flags)) == was.(
              debug := was.debug | with.debug, devicePrefix := was.devicePrefix | with.devicePrefix,
              recordChange := was.recordChange | with.recordChange, when := was.when | with.when,
              display := was.display | with.display, fitsHeaders := was.fitsHeaders | with.fitsHeaders,
              autosave := was.autosave | with.autosave, writable := was.writable | with.writable,
              notNull := was.notNull | with.notNull, error := was.error | with.error)
  {
    SetLowFields(w, flags);
    SetHighFields(w, flags);
    KeptFields(w, flags);
  }

  lemma SetLowFields(w: bv32, flags: bv32)
    ensures var was, with, now := Decode(w), Decode(flags), Decode(SetValueFlags(w, flags));
            && now.debug == was.debug | with.debug && now.devicePrefix == was.devicePrefix | with.devicePrefix
            && now.recordChange == was.recordChange | with.recordChange && now.when == was.when | with.when
            && now.display == was.display | with.display
  {
  }

  lemma SetHighFields(w: bv32, flags: bv32)
    ensures var was, with, now := Decode(w), Decode(flags), Decode(SetValueFlags(w, flags));
            && now.fitsHeaders == was.fitsHeaders | with.fitsHeaders && now.autosave == was.autosave | with.autosave
            && now.writable == was.writable | with.writable && now.notNull == was.notNull | with.notNull
            && now.error == was.error | with.error
  {
  }

  lemma KeptFields(w: bv32, flags: bv32)
    ensures var was, now := Decode(w), Decode(SetValueFlags(w, flags));
            && now.base == was.base && now.extension == was.extension && now.fits == was.fits
            && now.modified == was.modified && now.needSend == was.needSend
            && now.temporary == was.temporary && now.randevous == was.randevous
  {
  }

  /** An error code changes the error field alone exactly when every other bit in it is set already. */
  lemma MaskErrorOnField(w: bv32, err: bv32)
    ensures Decode(MaskError(w, err)) == Decode(w).(error := Decode(err).error) <==> err & !ERROR_MASK & !w == 0
  {
    var only := (w & !ERROR_MASK) | (err & ERROR_MASK);
    OnlyError(w, err);
    EncodeDecode(only);
    EncodeDecode(MaskError(w, err));
    SameWord(w, err);
  }

  lemma OnlyError(w: bv32, err: bv32)
    ensures Decode((w & !ERROR_MASK) | (err & ERROR_MASK)) == Decode(w).(error := Decode(err).error)
  {
  }

  lemma SameWord(w: bv32, err: bv32)
    ensures MaskError(w, err) == (w & !ERROR_MASK) | (err & ERROR_MASK) <==> err & !ERROR_MASK & !w == 0
  {
  }

  /* ---- Group numbers ---- */

  function GroupFlags(x: bv32): bv32 {
    ((0x20 + x) << 16) & GROUP_MASK
  }

  function WriteGroup(w: bv32): bv32 {
    ((w & GROUP_MASK) >> 16) - 0x20
  }

  /** A group number is read back from the flags made of it exactly when it has no bit the mask drops. */
  lemma GroupRoundTrip(x: bv32, w: bv32)
    requires w & GROUP_MASK == GroupFlags(x)
    ensures WriteGroup(w) == x <==> (x + 0x20) & !0x6f == 0
  {
  }

  lemma GroupsCollide()
    ensures GroupFlags(0) == GroupFlags(16)
  {
  }

  /* ---- Dirty bits ---- */

  /** A value with its flags, and what its two observers hold: the last one it was sent to and the one
  that reset the change bit last. */
  datatype Tracked<V> = Tracked(word: bv32, value: V, sent: V, recorded: V) {
    ghost predicate Sound() {
      && (word & NEED_SEND == 0 ==> sent == value)
      && (word & CHANGED == 0 ==> recorded == value)
    }
  }

  datatype Op<V> =
    | Set(value: V)
    | Touch(value: V)
    | Mark(flag: Flag)
    | Replace(flags: bv32)
    | Fault(err: bv32)

  /** `Set` compares first; `Touch`, which is what `inc` and `dec` do, does not. */
  function Step<V(==)>(t: Tracked<V>, op: Op<V>): Tracked<V> {
    match op
    case Set(v) => if t.value == v then t else t.(word := Changed(t.word), value := v)
    case Touch(v) => t.(word := Changed(t.word), value := v)
    case Mark(flag) =>
      var u := t.(word := OnWord(t.word, flag));
      if flag.Unchange? then u.(recorded := u.value) else if flag.Sent? then u.(sent := u.value) else u
    case Replace(flags) => t.(word := SetFlags(t.word, flags))
    case Fault(err) => t.(word := MaskError(t.word, err))
  }

  function Run<V(==)>(t: Tracked<V>, ops: seq<Op<V>>): Tracked<V>
    decreases |ops|
  {
    if ops == [] then t else Run(Step(t, ops[0]), ops[1..])
  }

  /** Flags given to `setFlags` carry every dirty bit that is set at that time. */
  ghost predicate KeepsNews<V>(t: Tracked<V>, op: Op<V>) {
    op.Replace? ==> t.word & !op.flags & DIRTY == 0
  }

  ghost predicate RunKeepsNews<V>(t: Tracked<V>, ops: seq<Op<V>>)
    decreases |ops|
  {
    ops == [] || (KeepsNews(t, ops[0]) && RunKeepsNews(Step(t, ops[0]), ops[1..]))
  }

  lemma MarkKeepsNews(w: bv32, flag: Flag)
    ensures var u := OnWord(w, flag);
            && (flag.Change? ==> u & NEED_SEND != 0 && u & CHANGED != 0)
            && (u & NEED_SEND == 0 ==> w & NEED_SEND == 0 || flag.Sent?)
            && (u & CHANGED == 0 ==> w & CHANGED == 0 || flag.Unchange?)
  {
    match flag case _ =>
  }

  lemma ReplaceKeepsNews(w: bv32, flags: bv32)
    ensures w & !flags & DIRTY == 0 <==>
            (SetFlags(w, flags) & NEED_SEND == 0 ==> w & NEED_SEND == 0)
            && (SetFlags(w, flags) & CHANGED == 0 ==> w & CHANGED == 0)
  {
  }

  lemma FaultKeepsNews(w: bv32, err: bv32)
    ensures MaskError(w, err) & NEED_SEND == 0 ==> w & NEED_SEND == 0
    ensures MaskError(w, err) & CHANGED == 0 ==> w & CHANGED == 0
  {
  }

  lemma StepKeepsSound<V>(t: Tracked<V>, op: Op<V>)
    requires t.Sound() && KeepsNews(t, op)
    ensures Step(t, op).Sound()
  {
    MarkKeepsNews(t.word, Change);
    match op
    case Set(_) =>
    case Touch(_) =>
    case Mark(flag) => MarkKeepsNews(t.word, flag);
    case Replace(flags) => ReplaceKeepsNews(t.word, flags);
    case Fault(err) => FaultKeepsNews(t.word, err);
  }

  /** Over any run an unset dirty bit means that its observer holds the current value. */
  lemma {:induction false} DirtyBitsAreSound<V>(t: Tracked<V>, ops: seq<Op<V>>)
    requires t.Sound() && RunKeepsNews(t, ops)
    ensures Run(t, ops).Sound()
    decreases |ops|
  {
    if ops != [] {
      StepKeepsSound(t, ops[0]);
      DirtyBitsAreSound(Step(t, ops[0]), ops[1..]);
    }
  }

  /** `setFlags` is the one operation that can lose news, and it does exactly when it drops a dirty bit
  that is set. */
  lemma ReplaceIsSoundIff<V(!new)>(w: bv32, flags: bv32, a: V, b: V)
    requires a != b
    ensures (forall t: Tracked<V> :: t.word == w && t.Sound() ==> Step(t, Replace(flags)).Sound())
            <==> w & !flags & DIRTY == 0
  {
    ReplaceKeepsNews(w, flags);
    var t := Tracked(w, a, if w & NEED_SEND == 0 then a else b, if w & CHANGED == 0 then a else b);
    assert t.Sound();
    if w & !flags & DIRTY == 0 {
      forall t: Tracked<V> | t.word == w && t.Sound()
        ensures Step(t, Replace(flags)).Sound()
      {
        StepKeepsSound(t, Replace(flags));
      }
    } else {
      assert !Step(t, Replace(flags)).Sound();
    }
  }

  function SetAll<V(==)>(t: Tracked<V>, values: seq<V>): Tracked<V>
    decreases |values|
  {
    if values == [] then t else SetAll(Step(t, Set(values[0])), values[1..])
  }

  /** The converse: setters raise the dirty bits only when one of them brings a value that differs from
  the one the run started with. */
  lemma {:induction false} NewsOnlyWhenDifferent<V>(t: Tracked<V>, values: seq<V>)
    ensures var u := SetAll(t, values);
            && u.word == (if exists i :: 0 <= i < |values| && values[i] != t.value then Changed(t.word) else t.word)
            && u.value == (if values == [] then t.value else values[|values| - 1])
            && u.sent == t.sent && u.recorded == t.recorded
    decreases |values|
  {
    if values != [] {
      NewsOnlyWhenDifferent(Step(t, Set(values[0])), values[1..]);
      ChangedTwice(t.word);
      if values[0] == t.value {
        assert forall i :: 0 < i < |values| ==> values[i] == values[1..][i - 1];
      }
    }
  }

  lemma ChangedTwice(w: bv32)
    ensures Changed(Changed(w)) == Changed(w)
  {
  }
}
