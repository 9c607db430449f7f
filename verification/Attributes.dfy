/**
 Reading and writing an item's attributes by identifier.  A value travels as one of a dozen
 kinds; the attribute has a type of its own.  Scalars are opaque reals here.
 */
module Attributes {
  import opened Basics
  import opened Traces

  datatype AttrType =
    | BoolAttr | IntAttr | Int2Attr | Int3Attr | Int4Attr | LongAttr | Long2Attr
    | FloatAttr | Float2Attr | Float3Attr | Float4Attr | MatrixAttr | StringAttr | FilenameAttr
    | OtherAttr(raw: int)

  datatype Vec4 = Vec4(x: real, y: real, z: real, w: real)

  const ZERO_ROW := Vec4(0.0, 0.0, 0.0, 0.0)

  /** A value as a client sends or receives it; the rows of a matrix are a list of any length. */
  datatype Value =
    | NoValue
    | BoolValue(b: bool)
    | IntValue(x: int) | Int2Value(x: int, y: int) | Int3Value(x: int, y: int, z: int)
    | Int4Value(x: int, y: int, z: int, w: int)
    | LongValue(l: int) | Long2Value(lx: int, ly: int)
    | FloatValue(f: real) | Float2Value(fx: real, fy: real) | Float3Value(fx: real, fy: real, fz: real)
    | Float4Value(v: Vec4)
    | MatrixValue(rows: seq<Vec4>)
    | StringValue(s: string)

  /** An attribute as the SDK keeps it: a matrix has exactly three rows, a string contains no NUL. */
  datatype Attr = Attr(kind: AttrType, value: Value)

  type Attrs = map<int, Attr>

  /** The value has the very kind of the type. */
  predicate OwnKind(t: AttrType, v: Value) {
    match t
    case BoolAttr => v.BoolValue?
    case IntAttr => v.IntValue?
    case Int2Attr => v.Int2Value?
    case Int3Attr => v.Int3Value?
    case Int4Attr => v.Int4Value?
    case LongAttr => v.LongValue?
    case Long2Attr => v.Long2Value?
    case FloatAttr => v.FloatValue?
    case Float2Attr => v.Float2Value?
    case Float3Attr => v.Float3Value?
    case Float4Attr => v.Float4Value?
    case MatrixAttr => v.MatrixValue?
    case StringAttr => v.StringValue?
    case FilenameAttr => v.StringValue?
    case OtherAttr(_) => false
  }

  // ---------------------------------------------------------------- the type guard

  predicate IsIntFamily(t: AttrType) {
    t == IntAttr || t == Int2Attr || t == Int3Attr || t == Int4Attr
  }

  predicate IsFloatFamily(t: AttrType) {
    t == FloatAttr || t == Float2Attr || t == Float3Attr || t == Float4Attr
  }

  /** The guard in front of every write, case by case; there is no case for two longs. */
  predicate Mismatch(t: AttrType, v: Value) {
    match v
    case BoolValue(_) => t != BoolAttr
    case IntValue(_) => !IsIntFamily(t)
    case Int2Value(_, _) => !IsIntFamily(t)
    case Int3Value(_, _, _) => !IsIntFamily(t)
    case Int4Value(_, _, _, _) => !IsIntFamily(t)
    case LongValue(_) => t != LongAttr && t != Long2Attr
    case FloatValue(_) => !IsFloatFamily(t)
    case Float2Value(_, _) => !IsFloatFamily(t)
    case Float3Value(_, _, _) => !IsFloatFamily(t)
    case Float4Value(_) => !IsFloatFamily(t)
    case MatrixValue(_) => t != MatrixAttr
    case StringValue(_) => t != StringAttr && t != FilenameAttr
    case _ => false
  }

  /** Two types a value of one kind may be written to alike. */
  predicate SameFamily(t: AttrType, u: AttrType) {
    || (t == u && !t.OtherAttr?)
    || (IsIntFamily(t) && IsIntFamily(u))
    || (IsFloatFamily(t) && IsFloatFamily(u))
    || (t in {LongAttr, Long2Attr} && u in {LongAttr, Long2Attr})
    || (t in {StringAttr, FilenameAttr} && u in {StringAttr, FilenameAttr})
  }

  /**
   The guard lets through exactly the values of the attribute's family, except that a pair
   of longs goes through to an attribute of any type.
   */
  lemma GuardIsFamilyExceptLong2(t: AttrType, v: Value, own: AttrType)
    requires OwnKind(own, v)
    ensures !Mismatch(t, v) <==> SameFamily(t, own) || v.Long2Value?
  {
  }

  // ---------------------------------------------------------------- normal forms

  /** Three rows: missing ones are zero, those beyond are dropped. */
  function ThreeRows(rows: seq<Vec4>): (r: seq<Vec4>)
    ensures |r| == 3
    ensures forall i :: 0 <= i < 3 ==> r[i] == if i < |rows| then rows[i] else ZERO_ROW
  {
    seq(3, i requires 0 <= i < 3 => if i < |rows| then rows[i] else ZERO_ROW)
  }

  const NUL: char := '\0'

  /** What is left of a string that is read as a C string. */
  function CutAtNul(s: string): (r: string)
    ensures r <= s && NUL !in r
    ensures |r| < |s| ==> s[|r|] == NUL
  {
    if s == "" || s[0] == NUL then "" else [s[0]] + CutAtNul(s[1..])
  }

  function Normal(v: Value): Value {
    match v
    case MatrixValue(rows) => MatrixValue(ThreeRows(rows))
    case StringValue(s) => StringValue(CutAtNul(s))
    case _ => v
  }

  lemma {:induction false} CutAtNulIsIdentityWithout(s: string)
    requires NUL !in s
    ensures CutAtNul(s) == s
  {
    if s != "" {
      CutAtNulIsIdentityWithout(s[1..]);
    }
  }

  /** The cut is at the first NUL, wherever one looks for it. */
  lemma CutIsFirstNul(s: string, n: nat)
    requires n <= |s| && forall i :: 0 <= i < n ==> s[i] != NUL
    requires n < |s| ==> s[n] == NUL
    ensures CutAtNul(s) == s[..n]
  {
    var r := CutAtNul(s);
    assert r == s[..|r|];
  }

  /** A value as the SDK keeps it: a matrix has exactly three rows, a string contains no NUL. */
  predicate Storable(v: Value) {
    match v
    case MatrixValue(rows) => |rows| == 3
    case StringValue(s) => '\0' !in s
    case _ => true
  }

  /** Normal forms can be kept, and are what is kept already. */
  lemma NormalIsStorable(v: Value)
    ensures Storable(Normal(v)) && (Normal(v) == v <==> Storable(v))
  {
    if v.StringValue? && Storable(v) {
      CutAtNulIsIdentityWithout(v.s);
    }
    if v.MatrixValue? && Storable(v) {
      assert ThreeRows(v.rows) == v.rows;
    }
  }

  /**
   What a client may read that has sent `v`: of a matrix three rows, those it sent and zeros;
   of a string what stands before the first NUL; and otherwise the very value.
   */
  predicate ReadsBackAs(v: Value, got: Value) {
    match v
    case MatrixValue(rows) =>
      && got.MatrixValue? && |got.rows| == 3
      && forall i :: 0 <= i < 3 ==> got.rows[i] == if i < |rows| then rows[i] else Vec4(0.0, 0.0, 0.0, 0.0)
    case StringValue(s) =>
      && got.StringValue? && got.s <= s && '\0' !in got.s
      && (|got.s| < |s| ==> s[|got.s|] == '\0')
    case _ => got == v
  }

  lemma NormalReadsBack(v: Value)
    ensures ReadsBackAs(v, Normal(v))
  {
  }

  lemma NormalIsIdempotent(v: Value)
    ensures Normal(Normal(v)) == Normal(v)
  {
    if v.StringValue? {
      CutAtNulIsIdentityWithout(CutAtNul(v.s));
    }
    if v.MatrixValue? {
      assert ThreeRows(ThreeRows(v.rows)) == ThreeRows(v.rows);
    }
  }

  // ---------------------------------------------------------------- the two RPCs on values

  /**
   How the SDK turns a value into one of the attribute's type.  It keeps a value that is of
   that type; what it makes of others is its own affair.
   */
  type Coercion = (AttrType, Value) -> Value

  ghost predicate KeepsOwnKind(coerce: Coercion) {
    forall t: AttrType, v: Value :: OwnKind(t, v) && Storable(v) ==> coerce(t, v) == v
  }

  ghost predicate MakesOwnKind(coerce: Coercion) {
    forall t: AttrType, v: Value :: !t.OtherAttr? ==> OwnKind(t, coerce(t, v)) && Storable(coerce(t, v))
  }

  datatype SetOutcome = SetOutcome(status: Status, success: bool, attrs: Attrs)

  /**
   Where in a write the SDK throws, if anywhere: when asked about the attribute, in its `set`,
   which may or may not have stored the value by then, or in the evaluation that follows every
   write.  The exception is caught around the whole body, which answers INTERNAL.
   */
  datatype Fault = NoFault | Asking | Setting(stored: bool) | Evaluating

  /** The attributes with the value stored. */
  function Stored(attrs: Attrs, id: int, v: Value, coerce: Coercion): Attrs
    requires id in attrs
  {
    attrs[id := Attr(attrs[id].kind, coerce(attrs[id].kind, Normal(v)))]
  }

  function SetAttr(required: Status, attrs: Attrs, id: int, v: Value, coerce: Coercion, fault: Fault): SetOutcome {
    if required != Ok then SetOutcome(required, false, attrs)
    else if fault == Asking then SetOutcome(Internal, false, attrs)
    else if id !in attrs || Mismatch(attrs[id].kind, v) then SetOutcome(InvalidArgument, false, attrs)
    else if v.NoValue? then SetOutcome(Ok, false, attrs)
    else if fault == Setting(false) then SetOutcome(Internal, false, attrs)
    else if fault != NoFault then SetOutcome(Internal, false, Stored(attrs, id, v, coerce))
    else SetOutcome(Ok, true, Stored(attrs, id, v, coerce))
  }

  /** The request gets as far as the SDK's `set`. */
  predicate Reaches(required: Status, attrs: Attrs, id: int, v: Value, fault: Fault) {
    required == Ok && fault != Asking && id in attrs && !v.NoValue? && !Mismatch(attrs[id].kind, v)
  }

  datatype GetOutcome = GetOutcome(status: Status, value: Value)

  /**
   Where in a read the SDK throws, if anywhere.  What is thrown while the type and the value
   are fetched is caught on the spot and answered like a missing attribute; asking whether
   there is such an attribute comes before that and is answered INTERNAL if it throws.
   */
  datatype ReadFault = NoReadFault | AskingFails | FetchingFails

  function GetAttr(required: Status, attrs: Attrs, id: int, fault: ReadFault): GetOutcome {
    if required != Ok then GetOutcome(required, NoValue)
    else if fault == AskingFails then GetOutcome(Internal, NoValue)
    else if id !in attrs || fault == FetchingFails then GetOutcome(Ok, NoValue)
    else if attrs[id].kind.OtherAttr? then GetOutcome(InvalidArgument, NoValue)
    else GetOutcome(Ok, attrs[id].value)
  }

  /** A value of the attribute's own kind is read back as it was sent, but for matrix rows and what follows a NUL. */
  lemma SetThenGet(attrs: Attrs, id: int, v: Value, coerce: Coercion)
    requires KeepsOwnKind(coerce)
    requires id in attrs && OwnKind(attrs[id].kind, v)
    ensures var set1 := SetAttr(Ok, attrs, id, v, coerce, NoFault);
      && set1.status == Ok && set1.success
      && GetAttr(Ok, set1.attrs, id, NoReadFault) == GetOutcome(Ok, Normal(v))
      && ReadsBackAs(v, GetAttr(Ok, set1.attrs, id, NoReadFault).value)
      && set1.attrs.Keys == attrs.Keys
      && (forall other :: other in attrs && other != id ==> set1.attrs[other] == attrs[other])
  {
    NormalIsIdempotent(v);
    NormalReadsBack(v);
    NormalIsStorable(v);
    assert OwnKind(attrs[id].kind, Normal(v));
  }

  /** Writing again, the value or what was read back, changes nothing more. */
  lemma SetIsIdempotent(attrs: Attrs, id: int, v: Value, coerce: Coercion, fault: Fault)
    requires KeepsOwnKind(coerce)
    requires id in attrs && OwnKind(attrs[id].kind, v)
    ensures var set1 := SetAttr(Ok, attrs, id, v, coerce, NoFault);
      && SetAttr(Ok, set1.attrs, id, v, coerce, fault).attrs == set1.attrs
      && SetAttr(Ok, set1.attrs, id, GetAttr(Ok, set1.attrs, id, NoReadFault).value, coerce, fault).attrs == set1.attrs
  {
    NormalIsIdempotent(v);
    NormalIsStorable(v);
    assert OwnKind(attrs[id].kind, Normal(v));
  }

  /**
   A write leaves all attributes as they were if and only if it does not reach the SDK's
   `set`, or that throws before it stores the value, or the value stored is the one that was
   there.  Only the named attribute ever changes, and it keeps its type.
   */
  lemma UnchangedIffNotStored(required: Status, attrs: Attrs, id: int, v: Value, coerce: Coercion, fault: Fault)
    ensures var o := SetAttr(required, attrs, id, v, coerce, fault);
      && (o.success <==> Reaches(required, attrs, id, v, fault) && fault == NoFault)
      && (o.attrs == attrs <==>
            || !Reaches(required, attrs, id, v, fault)
            || fault == Setting(false)
            || coerce(attrs[id].kind, Normal(v)) == attrs[id].value)
      && o.attrs.Keys == attrs.Keys
      && (forall other :: other in attrs ==> o.attrs[other].kind == attrs[other].kind)
      && (forall other :: other in attrs && other != id ==> o.attrs[other] == attrs[other])
  {
    if Reaches(required, attrs, id, v, fault) {
      assert Stored(attrs, id, v, coerce) == attrs <==> Stored(attrs, id, v, coerce)[id] == attrs[id];
    }
  }

  /** The evaluation after the write throws: the answer is INTERNAL, but the attribute has the new value. */
  lemma FailedWriteIsSeen(coerce: Coercion)
    requires KeepsOwnKind(coerce)
    ensures var o := SetAttr(Ok, map[7 := Attr(IntAttr, IntValue(1))], 7, IntValue(2), coerce, Evaluating);
      o.status == Internal && !o.success && GetAttr(Ok, o.attrs, 7, NoReadFault) == GetOutcome(Ok, IntValue(2))
  {
    assert OwnKind(IntAttr, IntValue(2)) && Storable(IntValue(2));
  }

  /** Whatever became of a write, sending it once more ends as if it had been sent once. */
  lemma RetryEndsAlike(required: Status, attrs: Attrs, id: int, v: Value, coerce: Coercion, fault: Fault, again: Fault)
    ensures SetAttr(required, SetAttr(required, attrs, id, v, coerce, fault).attrs, id, v, coerce, NoFault)
         == SetAttr(required, attrs, id, v, coerce, NoFault)
    ensures var o := SetAttr(required, attrs, id, v, coerce, fault);
      o.attrs != attrs ==> SetAttr(required, o.attrs, id, v, coerce, again).attrs == o.attrs
  {
    if Reaches(required, attrs, id, v, fault) {
      var once := Stored(attrs, id, v, coerce);
      assert Stored(once, id, v, coerce) == once;
    }
  }

  /** One write request: what the lookup of its item answered, and where it throws. */
  datatype Request = Request(required: Status, id: int, v: Value, fault: Fault)

  /** The attributes after any number of writes, one after the other. */
  function AfterWrites(attrs: Attrs, run: Trace<Request>, coerce: Coercion): Attrs {
    match run
    case Start => attrs
    case After(prev, r) => SetAttr(r.required, AfterWrites(attrs, prev, coerce), r.id, r.v, coerce, r.fault).attrs
  }

  /** The value sent for `id` by the latest request that got it stored, by the requests and the types alone. */
  function LastStored(attrs: Attrs, run: Trace<Request>, id: int): Option<Value> {
    match run
    case Start => None
    case After(prev, r) =>
      if r.id == id && Reaches(r.required, attrs, id, r.v, r.fault) && r.fault != Setting(false) then Some(r.v)
      else LastStored(attrs, prev, id)
  }

  /**
   After any run of writes, answered with success or not, a read gives what the latest write
   that stored anything made of its value, and the first value if there was none.
   */
  lemma {:induction false} ReadGivesLastStored(attrs: Attrs, run: Trace<Request>, coerce: Coercion, id: int)
    ensures AfterWrites(attrs, run, coerce).Keys == attrs.Keys
    ensures id in attrs ==>
              var now, last := AfterWrites(attrs, run, coerce), LastStored(attrs, run, id);
              var value := if last.Some? then coerce(attrs[id].kind, Normal(last.value)) else attrs[id].value;
              && now[id] == Attr(attrs[id].kind, value)
              && (last.Some? && OwnKind(attrs[id].kind, last.value) && KeepsOwnKind(coerce) ==>
                    ReadsBackAs(last.value, value))
              && (!attrs[id].kind.OtherAttr? ==> GetAttr(Ok, now, id, NoReadFault) == GetOutcome(Ok, value))
  {
    match run
    case Start =>
    case After(prev, r) =>
      ReadGivesLastStored(attrs, prev, coerce, id);
      UnchangedIffNotStored(r.required, AfterWrites(attrs, prev, coerce), r.id, r.v, coerce, r.fault);
      NormalIsStorable(r.v);
      NormalReadsBack(r.v);
  }

  /** A pair of longs sent to a boolean attribute is reported as a success, as no other mismatch is. */
  lemma Long2SlipsThrough(coerce: Coercion)
    ensures SetAttr(Ok, map[7 := Attr(BoolAttr, BoolValue(true))], 7, Long2Value(1, 2), coerce, NoFault).success
    ensures !OwnKind(BoolAttr, Long2Value(1, 2))
  {
  }

  // ---------------------------------------------------------------- the item

  class Item {
    var attrs: Attrs

    /** Every attribute of a supported type holds a value of that type, in normal form. */
    ghost predicate Valid()
      reads this
    {
      forall id :: id in attrs && !attrs[id].kind.OtherAttr? ==>
        OwnKind(attrs[id].kind, attrs[id].value) && Storable(attrs[id].value)
    }

    /** Copies the rows sent over a zero matrix of three rows. */
    method ReadMatrix(rows: seq<Vec4>) returns (m: seq<Vec4>)
      ensures m == ThreeRows(rows)
    {
      m := [ZERO_ROW, ZERO_ROW, ZERO_ROW];
      var row := 0;
      while row < |rows| && row < 3
        invariant 0 <= row <= 3 && row <= |rows| && |m| == 3
        invariant forall i :: 0 <= i < 3 ==> m[i] == if i < row then rows[i] else ZERO_ROW
      {
        m := m[row := rows[row]];
        row := row + 1;
      }
    }

    /** The characters before the first NUL. */
    method ReadCString(s: string) returns (r: string)
      ensures r == CutAtNul(s)
    {
      var n := 0;
      while n < |s| && s[n] != NUL
        invariant n <= |s| && forall i :: 0 <= i < n ==> s[i] != NUL
      {
        n := n + 1;
      }
      CutIsFirstNul(s, n);
      r := s[..n];
    }

    /** `required` is what looking up the item's handle answered. */
    method SetValueByAttrId(required: Status, id: int, v: Value, coerce: Coercion, fault: Fault)
      returns (status: Status, success: bool)
      requires Valid() && MakesOwnKind(coerce)
      modifies this
      ensures Valid()
      ensures SetOutcome(status, success, attrs) == SetAttr(required, old(attrs), id, v, coerce, fault)
      ensures status == if required != Ok then required
                        else if fault == Asking then Internal
                        else if id !in old(attrs) || Mismatch(old(attrs)[id].kind, v) then InvalidArgument
                        else if v.NoValue? || fault == NoFault then Ok
                        else Internal
      ensures success <==> status == Ok && !v.NoValue?
    {
      if required != Ok {
        return required, false;
      }
      if fault == Asking {
        return Internal, false;
      }
      if id !in attrs || Mismatch(attrs[id].kind, v) {
        return InvalidArgument, false;
      }
      var sdk := v;
      match v {
        case NoValue =>
          return Ok, false;
        case MatrixValue(rows) =>
          var m := ReadMatrix(rows);
          sdk := MatrixValue(m);
        case StringValue(s) =>
          var cut := ReadCString(s);
          sdk := StringValue(cut);
        case _ =>
      }
      if fault == Setting(false) {
        return Internal, false;
      }
      attrs := attrs[id := Attr(attrs[id].kind, coerce(attrs[id].kind, sdk))];
      if fault != NoFault {
        return Internal, false;
      }
      status, success := Ok, true;
    }

    method GetValueByAttrId(required: Status, id: int, fault: ReadFault) returns (status: Status, v: Value)
      requires Valid()
      ensures GetOutcome(status, v) == GetAttr(required, attrs, id, fault)
      ensures status == if required != Ok then required
                        else if fault == AskingFails then Internal
                        else if id in attrs && fault == NoReadFault && attrs[id].kind.OtherAttr? then InvalidArgument
                        else Ok
      ensures v == if status == Ok && id in attrs && fault == NoReadFault then attrs[id].value else NoValue
      ensures v == NoValue || (id in attrs && OwnKind(attrs[id].kind, v))
    {
      v := NoValue;
      if required != Ok {
        return required, v;
      }
      if fault == AskingFails {
        return Internal, v;
      }
      status := Ok;
      if id !in attrs || fault == FetchingFails {
        return;
      }
      match attrs[id].kind {
        case OtherAttr(_) =>
          status := InvalidArgument;
        case MatrixAttr =>
          var rows: seq<Vec4> := [];
          for row := 0 to 3
            invariant rows == attrs[id].value.rows[..row]
          {
            rows := rows + [attrs[id].value.rows[row]];
          }
          v := MatrixValue(rows);
        case _ =>
          v := attrs[id].value;
      }
    }
  }
}
