/**
 * The value codec of the bus.
 *
 * The toolkit's BSON streams are outside the repository; this self-delimiting codec stands in for them. Everything
 * the rest of the model uses is the contract proved here: reading a list of types over written values gives what
 * matching the types against the values gives, and stops exactly behind the last value read.
 */
module Codec {
  import opened Bytes

  datatype Type = U8Type | U16Type | U32Type | StringType | UndefinedType

  datatype Value =
    | U8(b: byte)
    | U16(lo: byte, hi: byte)
    | U32(n: u32)
    | String(text: Text)
    | Undefined

  /** One `ReadSingleValue`: the value and the advanced offset, or the text of the exception. */
  datatype ReadResult = Read(value: Value, next: nat) | ReadFailed(what: Text)

  datatype ReadListResult = ReadList(values: seq<Value>, end: nat) | ReadListFailed(reason: Text)

  /** Matching types against values directly, without any bytes. */
  datatype Matched = Matched(values: seq<Value>) | Mismatch(what: Text)

  const END_OF_DATA: Text := Ascii("unexpected end of data")
  const BAD_TYPE: Text := Ascii("unexpected value type")

  function TypeOf(v: Value): Type {
    match v
    case U8(_) => U8Type
    case U16(_, _) => U16Type
    case U32(_) => U32Type
    case String(_) => StringType
    case Undefined => UndefinedType
  }

  function Default(ty: Type): Value {
    match ty
    case U8Type => U8(0)
    case U16Type => U16(0, 0)
    case U32Type => U32(0)
    case StringType => String([])
    case UndefinedType => Undefined
  }

  function Tag(ty: Type): byte {
    match ty
    case U8Type => 1
    case U16Type => 2
    case U32Type => 3
    case StringType => 4
    case UndefinedType => 5
  }

  /** A string travels as marked bytes behind an end mark, so it needs no length limit. */
  function WriteText(t: Text): (s: seq<byte>)
    ensures |s| == 2 * |t| + 1
  {
    if t == [] then [0] else [1, t[0]] + WriteText(t[1..])
  }

  function ReadText(s: seq<byte>): (r: (bool, Text))
    ensures r.0 ==> 2 * |r.1| + 1 <= |s|
  {
    if s == [] then (false, [])
    else if s[0] == 0 then (true, [])
    else if |s| == 1 then (false, [])
    else
      var (ok, t) := ReadText(s[2..]);
      (ok, [s[1]] + t)
  }

  function Body(v: Value): seq<byte> {
    match v
    case U8(b) => [b]
    case U16(lo, hi) => [lo, hi]
    case U32(n) => ToLe(n)
    case String(t) => WriteText(t)
    case Undefined => []
  }

  function Write(v: Value): (s: seq<byte>)
    ensures |s| > 0
  {
    [Tag(TypeOf(v))] + Body(v)
  }

  function WriteAll(vs: seq<Value>): seq<byte> {
    if vs == [] then [] else Write(vs[0]) + WriteAll(vs[1..])
  }

  /** Reads the body of a value of type `ty` from the front of `s`; the second part is the byte count. */
  function ReadBody(ty: Type, s: seq<byte>): (r: ReadResult)
    ensures r.Read? ==> r.next <= |s| && TypeOf(r.value) == ty
  {
    match ty
    case U8Type => if |s| < 1 then ReadFailed(END_OF_DATA) else Read(U8(s[0]), 1)
    case U16Type => if |s| < 2 then ReadFailed(END_OF_DATA) else Read(U16(s[0], s[1]), 2)
    case U32Type => if |s| < 4 then ReadFailed(END_OF_DATA) else Read(U32(FromLe(s[..4])), 4)
    case StringType =>
      var (ok, t) := ReadText(s);
      if ok then Read(String(t), 2 * |t| + 1) else ReadFailed(END_OF_DATA)
    case UndefinedType => Read(Undefined, 0)
  }

  function ReadSingle(ty: Type, data: seq<byte>, offset: nat): (r: ReadResult)
    requires offset <= |data|
    ensures r.Read? ==> offset < r.next <= |data| && TypeOf(r.value) == ty
  {
    if offset == |data| then ReadFailed(END_OF_DATA)
    else if data[offset] != Tag(ty) then ReadFailed(BAD_TYPE)
    else
      match ReadBody(ty, data[offset + 1..])
      case Read(v, n) => Read(v, offset + 1 + n)
      case ReadFailed(what) => ReadFailed(what)
  }

  function ReadAll(types: seq<Type>, data: seq<byte>, offset: nat): (r: ReadListResult)
    requires offset <= |data|
    ensures r.ReadList? ==> |r.values| == |types| && offset <= r.end <= |data|
    decreases |types|
  {
    if types == [] then ReadList([], offset)
    else
      match ReadSingle(types[0], data, offset)
      case ReadFailed(what) => ReadListFailed(what)
      case Read(v, next) =>
        match ReadAll(types[1..], data, next)
        case ReadListFailed(what) => ReadListFailed(what)
        case ReadList(vs, end) => ReadList([v] + vs, end)
  }

  function Match(types: seq<Type>, vs: seq<Value>): (r: Matched)
    ensures r.Matched? ==> |types| <= |vs| && r.values == vs[..|types|]
  {
    if types == [] then Matched([])
    else if vs == [] then Mismatch(END_OF_DATA)
    else if TypeOf(vs[0]) != types[0] then Mismatch(BAD_TYPE)
    else
      match Match(types[1..], vs[1..])
      case Mismatch(what) => Mismatch(what)
      case Matched(rest) =>
        assert vs[..|types|] == [vs[0]] + vs[1..][..|types| - 1];
        Matched([vs[0]] + rest)
  }

  lemma {:induction false} TextReadsBack(t: Text, rest: seq<byte>)
    ensures ReadText(WriteText(t) + rest) == (true, t)
  {
    if t == [] {
      assert (WriteText(t) + rest)[0] == 0;
    } else {
      TextReadsBack(t[1..], rest);
      var tail := WriteText(t[1..]) + rest;
      assert t == [t[0]] + t[1..] && WriteText(t) + rest == [1, t[0]] + tail && ([1, t[0]] + tail)[2..] == tail;
    }
  }

  lemma BodyReadsBack(v: Value, rest: seq<byte>)
    ensures ReadBody(TypeOf(v), Body(v) + rest) == Read(v, |Body(v)|)
  {
    match v
    case U32(n) =>
      LeReadsBack(n);
      assert (ToLe(n) + rest)[..4] == ToLe(n);
    case String(t) =>
      TextReadsBack(t, rest);
    case _ =>
  }

  /** Reading inverts writing wherever the value stands, and stops exactly behind it. */
  lemma ReadsBack(pre: seq<byte>, v: Value, post: seq<byte>)
    ensures ReadSingle(TypeOf(v), pre + Write(v) + post, |pre|) == Read(v, |pre + Write(v)|)
  {
    var data := pre + Write(v) + post;
    assert data[|pre|] == Tag(TypeOf(v));
    assert data[|pre| + 1..] == Body(v) + post;
    BodyReadsBack(v, post);
  }

  lemma {:induction false} TextNeedsAllBytes(t: Text, k: nat)
    requires k < |WriteText(t)|
    ensures !ReadText(WriteText(t)[..k]).0
  {
    if t != [] && k >= 2 {
      assert WriteText(t)[..k][2..] == WriteText(t[1..])[..k - 2];
      TextNeedsAllBytes(t[1..], k - 2);
    }
  }

  /** A value that was cut off anywhere is not read at all. */
  lemma CutOffFails(pre: seq<byte>, v: Value, k: nat)
    requires k < |Write(v)|
    ensures ReadSingle(TypeOf(v), pre + Write(v)[..k], |pre|).ReadFailed?
  {
    var data := pre + Write(v)[..k];
    if k > 0 {
      assert data[|pre|] == Tag(TypeOf(v)) && data[|pre| + 1..] == Body(v)[..k - 1];
      if v.String? {
        TextNeedsAllBytes(v.text, k - 1);
      }
    }
  }

  lemma WrongTypeFails(ty: Type, pre: seq<byte>, v: Value, post: seq<byte>)
    requires TypeOf(v) != ty
    ensures ReadSingle(ty, pre + Write(v) + post, |pre|) == ReadFailed(BAD_TYPE)
  {
    assert (pre + Write(v) + post)[|pre|] == Tag(TypeOf(v));
  }

  /** What a read list becomes when one more value was read in front of it. */
  function Prepend(v: Value, r: ReadListResult): ReadListResult {
    match r
    case ReadListFailed(what) => r
    case ReadList(vs, end) => ReadList([v] + vs, end)
  }

  function AfterMatch(pre: seq<byte>, m: Matched): ReadListResult {
    match m
    case Matched(got) => ReadList(got, |pre + WriteAll(got)|)
    case Mismatch(what) => ReadListFailed(what)
  }

  lemma ReadAllHead(types: seq<Type>, pre: seq<byte>, v: Value, post: seq<byte>)
    requires types != []
    ensures ReadAll(types, pre + Write(v) + post, |pre|) ==
            if TypeOf(v) != types[0] then ReadListFailed(BAD_TYPE)
            else Prepend(v, ReadAll(types[1..], pre + Write(v) + post, |pre + Write(v)|))
  {
    if TypeOf(v) != types[0] {
      WrongTypeFails(types[0], pre, v, post);
    } else {
      ReadsBack(pre, v, post);
    }
  }

  lemma AfterMatchHead(pre: seq<byte>, v: Value, got: seq<Value>)
    ensures AfterMatch(pre, Matched([v] + got)) == Prepend(v, AfterMatch(pre + Write(v), Matched(got)))
  {
    assert ([v] + got)[1..] == got;
  }

  lemma ReadAtEnd(data: seq<byte>)
    ensures forall ty :: ReadSingle(ty, data, |data|) == ReadFailed(END_OF_DATA)
  {
  }

  /** Reading types over written values is matching types against values; extra values stay unread. */
  lemma {:induction false} ReadAllMatches(types: seq<Type>, pre: seq<byte>, vs: seq<Value>)
    ensures ReadAll(types, pre + WriteAll(vs), |pre|) == AfterMatch(pre, Match(types, vs))
    decreases |types|
  {
    hide Write, ReadSingle, TypeOf;
    if types == [] || vs == [] {
      assert pre + WriteAll([]) == pre;
      ReadAtEnd(pre);
    } else {
      var v, rest := vs[0], WriteAll(vs[1..]);
      var data, next := pre + WriteAll(vs), pre + Write(v);
      assert data == pre + Write(v) + rest;
      ReadAllHead(types, pre, v, rest);
      if TypeOf(v) == types[0] {
        ReadAllMatches(types[1..], next, vs[1..]);
        var m := Match(types[1..], vs[1..]);
        match m {
          case Matched(got) => AfterMatchHead(pre, v, got);
          case Mismatch(_) =>
        }
      }
    }
  }

  function TypesOf(vs: seq<Value>): (types: seq<Type>)
    ensures |types| == |vs|
  {
    if vs == [] then [] else [TypeOf(vs[0])] + TypesOf(vs[1..])
  }

  lemma {:induction false} MatchExact(vs: seq<Value>)
    ensures Match(TypesOf(vs), vs) == Matched(vs)
  {
    if vs != [] {
      MatchExact(vs[1..]);
      assert TypesOf(vs)[1..] == TypesOf(vs[1..]);
      assert vs == [vs[0]] + vs[1..];
    }
  }

  /** The list starts with values of the wanted types. */
  predicate StartsWith(vs: seq<Value>, types: seq<Type>) {
    |types| <= |vs| && forall j :: 0 <= j < |types| ==> TypeOf(vs[j]) == types[j]
  }

  /** The `i`-th value is the first that is missing or not of the wanted type. */
  predicate StopsAt(vs: seq<Value>, types: seq<Type>, i: nat) {
    && i < |types| && i <= |vs| && (i < |vs| ==> TypeOf(vs[i]) != types[i])
    && forall j :: 0 <= j < i ==> TypeOf(vs[j]) == types[j]
  }

  /** Values of the wanted types are taken, and any more values are left. */
  lemma {:induction false} MatchTakes(types: seq<Type>, vs: seq<Value>)
    requires StartsWith(vs, types)
    ensures Match(types, vs) == Matched(vs[..|types|])
  {
    if types != [] {
      MatchTakes(types[1..], vs[1..]);
      assert vs[..|types|] == [vs[0]] + vs[1..][..|types| - 1];
    }
  }

  /** The first value that is missing or of another type decides. */
  lemma {:induction false} MatchStops(types: seq<Type>, vs: seq<Value>, i: nat)
    requires StopsAt(vs, types, i)
    ensures Match(types, vs) == Mismatch(if i == |vs| then END_OF_DATA else BAD_TYPE)
  {
    if i > 0 {
      MatchStops(types[1..], vs[1..], i - 1);
    }
  }

  lemma WriteAllCons(v: Value, vs: seq<Value>)
    ensures WriteAll([v] + vs) == Write(v) + WriteAll(vs)
  {
    assert ([v] + vs)[1..] == vs;
  }

  lemma {:induction false} WriteAllAppend(vs: seq<Value>, ws: seq<Value>)
    ensures WriteAll(vs + ws) == WriteAll(vs) + WriteAll(ws)
  {
    if vs == [] {
      assert vs + ws == ws;
    } else {
      var head, tail := vs[0], vs[1..];
      assert vs == [head] + tail && vs + ws == [head] + (tail + ws);
      WriteAllCons(head, tail + ws);
      WriteAllAppend(tail, ws);
      Reassociate(Write(head), WriteAll(tail), WriteAll(ws));
    }
  }
}
