/** Class, service and object identities: construction from text, printing, and what a wire trip keeps of them. */
module Identity {
  import opened Bytes
  import opened Codec

  datatype ClassId = ClassId(name: Text, version: u32)

  type ServiceId = ClassId

  datatype ObjectId = ObjectId(cls: ClassId, id: u32)

  datatype Made<T> = Made(id: T) | Thrown(what: Text)

  const DASH: byte := 45

  predicate IsSpace(b: byte) {
    b == 32 || 9 <= b <= 13
  }

  predicate IsDigit(b: byte) {
    48 <= b <= 57
  }

  /** The position of the first `b`, or the length when there is none. */
  function Find(s: Text, b: byte): (i: nat)
    ensures i <= |s| && (i < |s| ==> s[i] == b)
    ensures forall k :: 0 <= k < i ==> s[k] != b
  {
    if s == [] || s[0] == b then 0 else 1 + Find(s[1..], b)
  }

  function SkipSpace(s: Text): Text {
    if s != [] && IsSpace(s[0]) then SkipSpace(s[1..]) else s
  }

  function DigitsValue(s: Text, acc: nat): nat {
    if s != [] && IsDigit(s[0]) then DigitsValue(s[1..], 10 * acc + s[0] - 48) else acc
  }

  /** An optional sign, then digits; the second part says whether there was a digit at all. */
  function SignedValue(s: Text): (int, bool) {
    var signed := s != [] && (s[0] == 43 || s[0] == DASH);
    var digits := if signed then s[1..] else s;
    var v: int := DigitsValue(digits, 0);
    (if signed && s[0] == DASH then -v else v, digits != [] && IsDigit(digits[0]))
  }

  /** `strtol` on a 64-bit long saturates. */
  function Saturate(v: int): int {
    if v > 0x7fff_ffff_ffff_ffff then 0x7fff_ffff_ffff_ffff
    else if v < -0x8000_0000_0000_0000 then -0x8000_0000_0000_0000
    else v
  }

  /** `atoi` narrows the saturated long to int; storing that in the unsigned `Version` leaves it modulo 2^32. */
  function AtoiVersion(s: Text): u32 {
    Saturate(SignedValue(SkipSpace(s)).0) % U32_LIMIT
  }

  /** The constructor `ClassId(name, version)`: it never looks at `version`. */
  function Construct(name: Text, version: u32): Made<ClassId> {
    var pos := Find(name, DASH);
    if pos < |name| then
      var v := AtoiVersion(name[pos + 1..]);
      if v == 0 then Thrown(Ascii("invalid version")) else Made(ClassId(name[..pos], v))
    else
      Made(ClassId(name, 1))
  }

  /** `std::stoi`, with the texts its exceptions carry. */
  function Stoi(s: Text): Made<int> {
    var (v, any) := SignedValue(SkipSpace(s));
    if !any || v < -0x8000_0000 || v > 0x7fff_ffff then Thrown(Ascii("stoi")) else Made(v)
  }

  function FromString(s: Text): Made<ClassId> {
    var pos := Find(s, DASH);
    if pos == |s| then Thrown(Ascii("no version in service id"))
    else
      match Stoi(s[pos + 1..])
      case Thrown(what) => Thrown(what)
      case Made(v) => Construct(s[..pos], v % U32_LIMIT)
  }

  function Decimal(n: nat): (s: Text)
    ensures |s| > 0 && forall i :: 0 <= i < |s| ==> IsDigit(s[i])
  {
    if n < 10 then [48 + n] else Decimal(n / 10) + [48 + n % 10]
  }

  function ToText(c: ClassId): Text {
    c.name + [DASH] + Decimal(c.version)
  }

  function ObjectText(o: ObjectId): Text {
    ToText(o.cls) + Ascii("/") + Decimal(o.id)
  }

  function SocketPath(develMode: bool, service: ServiceId): Text {
    (if develMode then Ascii(".") else []) + Ascii("/packages/") + ToText(service) + Ascii("/socket")
  }

  /** The fields an object id puts on the wire, in order. */
  function WireFields(o: ObjectId): seq<Value> {
    [String(o.cls.name), U32(o.cls.version), U32(o.id)]
  }

  /** The object id the receiver rebuilds from those fields. */
  function Received(o: ObjectId): Made<ObjectId> {
    match Construct(o.cls.name, o.cls.version)
    case Thrown(what) => Thrown(what)
    case Made(c) => Made(ObjectId(c, o.id))
  }

  lemma {:induction false} DigitsSnoc(s: Text, d: byte, acc: nat)
    requires IsDigit(d) && forall i :: 0 <= i < |s| ==> IsDigit(s[i])
    ensures DigitsValue(s + [d], acc) == 10 * DigitsValue(s, acc) + d - 48
    decreases |s|
  {
    if s == [] {
      assert DigitsValue([d], acc) == DigitsValue([d][1..], 10 * acc + d - 48);
    } else {
      assert (s + [d])[0] == s[0] && (s + [d])[1..] == s[1..] + [d];
      DigitsSnoc(s[1..], d, 10 * acc + s[0] - 48);
    }
  }

  lemma {:induction false} DecimalReadsBack(n: nat)
    ensures DigitsValue(Decimal(n), 0) == n
  {
    if n < 10 {
      assert DigitsValue([48 + n], 0) == DigitsValue([48 + n][1..], n);
    } else {
      DecimalReadsBack(n / 10);
      DigitsSnoc(Decimal(n / 10), 48 + n % 10, 0);
    }
  }

  lemma DecimalAsNumber(n: nat)
    ensures SignedValue(SkipSpace(Decimal(n))) == (n, true)
  {
    DecimalReadsBack(n);
    assert IsDigit(Decimal(n)[0]);
  }

  lemma FindInText(c: ClassId)
    ensures DASH !in c.name ==> Find(ToText(c), DASH) == |c.name|
    ensures Find(ToText(c), DASH) <= |c.name|
  {
    var s := ToText(c);
    var i := Find(s, DASH);
    assert s[|c.name|] == DASH;
    if i < |c.name| {
      assert s[i] == c.name[i];
    }
  }

  /** Printing and constructing again gives the id back exactly when the name has no dash and the version is not 0. */
  lemma ConstructInvertsToText(c: ClassId)
    ensures Construct(ToText(c), 1) == Made(c) <==> DASH !in c.name && c.version > 0
  {
    var s := ToText(c);
    FindInText(c);
    var pos := Find(s, DASH);
    if DASH !in c.name {
      DecimalAsNumber(c.version);
      assert s[pos + 1..] == Decimal(c.version) && s[..pos] == c.name;
    } else {
      assert s[..|c.name|] == c.name;
      assert |s[..pos]| < |c.name|;
    }
  }

  /** A constructed id has a dash-free name and a positive version, so it always survives printing. */
  lemma ConstructedIdsSurvive(name: Text, version: u32)
    ensures var m := Construct(name, version); m.Made? ==> Construct(ToText(m.id), 1) == m
  {
    var m := Construct(name, version);
    if m.Made? {
      var pos := Find(name, DASH);
      assert name[..|name|] == name;
      assert DASH !in m.id.name;
      ConstructInvertsToText(m.id);
    }
  }

  /** `FromString` loses the version: it inverts printing exactly for dash-free names of version 1. */
  lemma FromStringInvertsToText(c: ClassId)
    ensures FromString(ToText(c)) == Made(c) <==> DASH !in c.name && c.version == 1
  {
    var s := ToText(c);
    FindInText(c);
    var pos := Find(s, DASH);
    var head := s[..pos];
    assert Find(head, DASH) == |head|;
    assert head[..|head|] == head;
    if DASH !in c.name {
      DecimalAsNumber(c.version);
      assert s[pos + 1..] == Decimal(c.version) && head == c.name;
    } else {
      assert s[..|c.name|] == c.name;
      assert |head| < |c.name|;
    }
  }

  lemma FromStringLosesVersion()
    ensures var c := ClassId(Ascii("system.Clock"), 2);
            FromString(ToText(c)) == Made(c.(version := 1)) && Construct(ToText(c), 1) == Made(c)
  {
    var c := ClassId(Ascii("system.Clock"), 2);
    assert DASH !in c.name;
    ConstructInvertsToText(c);
    FindInText(c);
    DecimalAsNumber(2);
    var s := ToText(c);
    assert s[..|c.name|] == c.name && s[|c.name| + 1..] == Decimal(2);
    assert Find(c.name, DASH) == |c.name|;
  }

  /** Different ids print differently, dashes in names or not. */
  lemma ToTextInjective(c: ClassId, d: ClassId)
    requires ToText(c) == ToText(d)
    ensures c == d
  {
    var s, t := ToText(c), ToText(d);
    var m, n := |c.name|, |d.name|;
    assert s[m] == DASH && t[n] == DASH;
    assert forall i :: m < i < |s| ==> s[i] == Decimal(c.version)[i - m - 1];
    assert forall i :: n < i < |t| ==> t[i] == Decimal(d.version)[i - n - 1];
    assert m == n;
    assert s[..m] == c.name && t[..m] == d.name;
    assert s[m + 1..] == Decimal(c.version) && t[m + 1..] == Decimal(d.version);
    DecimalReadsBack(c.version);
    DecimalReadsBack(d.version);
  }

  /** Two services share a socket path only when they are the same service. */
  lemma SocketPathInjective(develMode: bool, c: ServiceId, d: ServiceId)
    requires SocketPath(develMode, c) == SocketPath(develMode, d)
    ensures c == d
  {
    var pre := (if develMode then Ascii(".") else []) + Ascii("/packages/");
    var post := Ascii("/socket");
    var s, t := SocketPath(develMode, c), SocketPath(develMode, d);
    assert s[|pre|..|s| - |post|] == ToText(c);
    assert t[|pre|..|t| - |post|] == ToText(d);
    ToTextInjective(c, d);
  }

  /** An object id crosses the wire unchanged exactly when its class name has no dash and its version is 1. */
  lemma WireKeepsId(o: ObjectId)
    ensures Received(o) == Made(o) <==> DASH !in o.cls.name && o.cls.version == 1
  {
    var pos := Find(o.cls.name, DASH);
    assert o.cls.name[..|o.cls.name|] == o.cls.name;
    if pos < |o.cls.name| {
      assert o.cls.name[pos] == DASH;
      assert |o.cls.name[..pos]| < |o.cls.name|;
    }
  }

  // ----- which texts are versions -----

  /** The number a digit string stands for, by its last digit. */
  function NumberOf(digits: Text): nat
    requires forall i :: 0 <= i < |digits| ==> 48 <= digits[i] <= 57
  {
    if digits == [] then 0 else 10 * NumberOf(digits[..|digits| - 1]) + (digits[|digits| - 1] - 48)
  }

  /** White space, a sign or none, and then something that goes on with neither of them. */
  predicate Leads(spaces: Text, sign: Text, tail: Text) {
    && (forall i :: 0 <= i < |spaces| ==> spaces[i] == 32 || 9 <= spaces[i] <= 13)
    && (sign == [] || sign == Ascii("+") || sign == Ascii("-"))
    && (sign == [] && tail != [] ==> tail[0] !in {9, 10, 11, 12, 13, 32, 43, 45})
  }

  /** Digits, and behind them no further digit. */
  predicate DigitsThen(digits: Text, rest: Text) {
    && (forall i :: 0 <= i < |digits| ==> 48 <= digits[i] <= 57)
    && (rest != [] ==> !(48 <= rest[0] <= 57))
  }

  /** The number with its sign. */
  function Signed(sign: Text, digits: Text): int
    requires forall i :: 0 <= i < |digits| ==> 48 <= digits[i] <= 57
  {
    var n: int := NumberOf(digits);
    if sign == Ascii("-") then -n else n
  }

  lemma {:induction false} DigitsAreNumber(digits: Text, rest: Text)
    requires DigitsThen(digits, rest)
    ensures DigitsValue(digits + rest, 0) == NumberOf(digits)
    decreases |digits|
  {
    if digits == [] {
      assert digits + rest == rest;
    } else {
      var front, d := digits[..|digits| - 1], digits[|digits| - 1];
      DigitsStop(digits, rest, 0);
      DigitsStop(front, [], 0);
      DigitsAreNumber(front, []);
      assert front + [] == front && digits == front + [d];
      DigitsSnoc(front, d, 0);
    }
  }

  lemma {:induction false} DigitsStop(digits: Text, rest: Text, acc: nat)
    requires DigitsThen(digits, rest)
    ensures DigitsValue(digits + rest, acc) == DigitsValue(digits, acc)
    decreases |digits|
  {
    if digits == [] {
      assert digits + rest == rest;
    } else {
      assert (digits + rest)[1..] == digits[1..] + rest;
      DigitsStop(digits[1..], rest, 10 * acc + digits[0] - 48);
    }
  }

  lemma {:induction false} SpaceSkipped(spaces: Text, tail: Text)
    requires forall i :: 0 <= i < |spaces| ==> spaces[i] == 32 || 9 <= spaces[i] <= 13
    requires tail != [] ==> tail[0] !in {9, 10, 11, 12, 13, 32}
    ensures SkipSpace(spaces + tail) == tail
    decreases |spaces|
  {
    if spaces == [] {
      assert spaces + tail == tail;
    } else {
      assert (spaces + tail)[1..] == spaces[1..] + tail;
      SpaceSkipped(spaces[1..], tail);
    }
  }

  lemma SignedReads(spaces: Text, sign: Text, digits: Text, rest: Text)
    requires Leads(spaces, sign, digits + rest) && DigitsThen(digits, rest)
    ensures SignedValue(SkipSpace(spaces + (sign + (digits + rest)))) == (Signed(sign, digits), digits != [])
  {
    var tail := digits + rest;
    SpaceSkipped(spaces, sign + tail);
    DigitsAreNumber(digits, rest);
    if sign == [] {
      assert sign + tail == tail;
    } else {
      assert (sign + tail)[1..] == tail;
    }
  }

  /** Every text is white space, a sign or none, digits or none, and a rest. */
  lemma TextSplits(text: Text) returns (spaces: Text, sign: Text, digits: Text, rest: Text)
    ensures text == spaces + (sign + (digits + rest))
    ensures DigitsThen(digits, rest) && Leads(spaces, sign, digits + rest)
  {
    var tail: Text;
    spaces, tail := SpaceSplits(text);
    sign := if tail != [] && tail[0] in {43, 45} then tail[..1] else [];
    var number := tail[|sign|..];
    assert tail == sign + number;
    digits, rest := DigitsSplit(number);
  }

  lemma {:induction false} SpaceSplits(text: Text) returns (spaces: Text, tail: Text)
    ensures text == spaces + tail
    ensures forall i :: 0 <= i < |spaces| ==> spaces[i] == 32 || 9 <= spaces[i] <= 13
    ensures tail != [] ==> tail[0] !in {9, 10, 11, 12, 13, 32}
  {
    spaces, tail := [], text;
    if text != [] && text[0] in {9, 10, 11, 12, 13, 32} {
      spaces, tail := SpaceSplits(text[1..]);
      spaces := [text[0]] + spaces;
      assert text == [text[0]] + text[1..];
    }
  }

  lemma {:induction false} DigitsSplit(text: Text) returns (digits: Text, rest: Text)
    ensures text == digits + rest && DigitsThen(digits, rest)
  {
    digits, rest := [], text;
    if text != [] && 48 <= text[0] <= 57 {
      digits, rest := DigitsSplit(text[1..]);
      digits := [text[0]] + digits;
      assert text == [text[0]] + text[1..];
    }
  }

  lemma DashFound(name: Text, text: Text)
    requires DASH !in name
    ensures var s := name + [DASH] + text;
            Find(s, DASH) == |name| && s[..|name|] == name && s[|name| + 1..] == text
  {
    var s := name + [DASH] + text;
    assert s[|name|] == DASH;
    assert forall i :: 0 <= i < |name| ==> s[i] == name[i];
  }

  /**
   * What constructing makes of a name with a dash: the number behind the first dash, saturated to 64 bits and taken
   * modulo 2^32, is the version, and zero is refused; so is a text with no number at all.
   */
  lemma ConstructReadsVersion(name: Text, spaces: Text, sign: Text, digits: Text, rest: Text, version: u32)
    requires DASH !in name && Leads(spaces, sign, digits + rest) && DigitsThen(digits, rest)
    ensures var n := Signed(sign, digits);
            var long := if n >= 0x8000_0000_0000_0000 then 0x7fff_ffff_ffff_ffff
                        else if n < -0x8000_0000_0000_0000 then -0x8000_0000_0000_0000 else n;
            Construct(name + [DASH] + (spaces + (sign + (digits + rest))), version) ==
            if long % 0x1_0000_0000 == 0 then Thrown(Ascii("invalid version"))
            else Made(ClassId(name, long % 0x1_0000_0000))
  {
    DashFound(name, spaces + (sign + (digits + rest)));
    SignedReads(spaces, sign, digits, rest);
  }

  /** A name without a dash has version 1, whatever version is given. */
  lemma ConstructWithoutDash(name: Text, version: u32)
    requires DASH !in name
    ensures Construct(name, version) == Made(ClassId(name, 1))
  {
    assert name[..|name|] == name;
  }

  /** `FromString` needs a dash and a number in the range of int behind it, and then makes version 1 of any number. */
  lemma FromStringReadsNumber(name: Text, spaces: Text, sign: Text, digits: Text, rest: Text)
    requires DASH !in name && Leads(spaces, sign, digits + rest) && DigitsThen(digits, rest)
    ensures FromString(name) == Thrown(Ascii("no version in service id"))
    ensures var made := FromString(name + [DASH] + (spaces + (sign + (digits + rest))));
            if digits != [] && -0x8000_0000 <= Signed(sign, digits) < 0x8000_0000 then made == Made(ClassId(name, 1))
            else made.Thrown?
  {
    DashFound(name, spaces + (sign + (digits + rest)));
    SignedReads(spaces, sign, digits, rest);
    ConstructWithoutDash(name, 0);
    assert Find(name, DASH) == |name|;
  }

  /** Where a service listens. */
  lemma SocketPathReads(develMode: bool, service: ServiceId)
    ensures var path := Ascii("/packages/") + service.name + Ascii("-") + Decimal(service.version) + Ascii("/socket");
            SocketPath(develMode, service) == if develMode then Ascii(".") + path else path
  {
    assert Ascii("-") == [DASH];
  }

  /** How an object id is printed. */
  lemma ObjectTextReads(o: ObjectId)
    ensures ObjectText(o) == o.cls.name + Ascii("-") + Decimal(o.cls.version) + Ascii("/") + Decimal(o.id)
  {
    assert Ascii("-") == [DASH];
  }
}
