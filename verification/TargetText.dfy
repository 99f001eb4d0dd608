/** Discovery target texts: single addresses, CIDR blocks and ranges, and their canonical form. */
module TargetText {
  import opened Text
  import opened Ipv4

  datatype Target = Target(canonical: string, addresses: seq<Addr>)

  /** IPv6 literals are recognised by library code outside this model; all that is used of it is whether it succeeds. */
  type V6Parser = string -> bool

  // ---------- netip texts ----------

  /** A decimal field without sign or leading zero. */
  function ParseNumeral(s: string, max: nat): (r: Option<nat>)
    ensures r.Some? ==> r.value <= max
  {
    if s == "" || !AllDigits(s) || (|s| > 1 && s[0] == '0') || ValueOf(s) > max then None else Some(ValueOf(s))
  }

  function Combine(o: seq<nat>): Addr
    requires |o| == 4 && forall i :: 0 <= i < 4 ==> o[i] <= 255
  {
    ((o[0] * 256 + o[1]) * 256 + o[2]) * 256 + o[3]
  }

  function Octets(a: Addr): (o: seq<nat>)
    ensures |o| == 4 && (forall i :: 0 <= i < 4 ==> o[i] <= 255) && Combine(o) == a
  {
    var high := a / 256;
    var higher := high / 256;
    assert a == high * 256 + a % 256 && high == higher * 256 + high % 256;
    assert higher / 256 <= 255;
    [higher / 256, higher % 256, high % 256, a % 256]
  }

  /** netip.Addr.String of an IPv4 address. */
  function Dotted(a: Addr): string {
    Join(Fields(Octets(a)), '.')
  }

  /** Every field as an octet, or nothing. */
  function ParseOctets(fields: seq<string>): (r: Option<seq<nat>>)
    ensures r.Some? ==> |r.value| == |fields| && forall i :: 0 <= i < |r.value| ==> r.value[i] <= 255
  {
    if fields == [] then Some([])
    else
      var first, rest := ParseNumeral(fields[0], 255), ParseOctets(fields[1..]);
      if first.None? || rest.None? then None else Some([first.value] + rest.value)
  }

  function ParseV4(s: string): Option<Addr> {
    var o := ParseOctets(Split(s, '.'));
    if o.Some? && |o.value| == 4 then Some(Combine(o.value)) else None
  }

  /** The character by which netip.ParseAddr picks the address family. */
  function FirstMark(s: string): Option<char> {
    if s == "" then None else if s[0] == '.' || s[0] == ':' || s[0] == '%' then Some(s[0]) else FirstMark(s[1..])
  }

  /** netip.ParseAddr */
  function ParseAddr(s: string, v6: V6Parser): Option<Address> {
    match FirstMark(s)
    case Some(c) =>
      if c == '.' then (match ParseV4(s) case Some(a) => Some(V4(a)) case None => None)
      else if c == ':' && v6(s) then Some(V6)
      else None
    case None => None
  }

  // ---------- ParseTarget ----------

  const SEPARATORS: seq<char> := ['-', '\U{2013}', '\U{2014}']

  function RangeBy(s: string, separator: char, v6: V6Parser): Option<(Address, Address)> {
    var parts := Split(s, separator);
    if |parts| != 2 then None
    else
      var start, end := ParseAddr(TrimSpace(parts[0]), v6), ParseAddr(TrimSpace(parts[1]), v6);
      if start.None? || end.None? then None else Some((start.value, end.value))
  }

  /** The first separator that yields two addresses wins. */
  function SplitAddressRange(s: string, separators: seq<char>, v6: V6Parser): Option<(Address, Address)> {
    if separators == [] then None
    else if RangeBy(s, separators[0], v6).Some? then RangeBy(s, separators[0], v6)
    else SplitAddressRange(s, separators[1..], v6)
  }

  function TargetOfRange(start: Address, end: Address): Option<Target> {
    match RangeAddresses(start, end)
    case None => None
    case Some(addresses) => Some(Target(Dotted(start.addr) + "-" + Dotted(end.addr), addresses))
  }

  function CidrText(base: Addr, bits: nat): string { Dotted(base) + "/" + Decimal(bits) }

  /** What stands before and after the last occurrence of a character. */
  function CutLast(s: string, c: char): (r: Option<(string, string)>)
    ensures r.Some? ==> s == r.value.0 + [c] + r.value.1
  {
    if s == "" then None
    else
      match CutLast(s[1..], c)
      case Some((head, tail)) => Some(([s[0]] + head, tail))
      case None => if s[0] == c then Some(("", s[1..])) else None
  }

  function TargetOfPrefix(s: string, v6: V6Parser): Option<Target> {
    match CutLast(s, '/')
    case None => None
    case Some((head, tail)) =>
      var address, bits := ParseAddr(head, v6), ParseNumeral(tail, 32);
      if address.None? || !address.value.V4? || bits.None? then None else TargetOfBlock(address.value.addr, bits.value)
  }

  function TargetOfBlock(a: Addr, bits: nat): Option<Target>
    requires bits <= 32
  {
    match PrefixAddresses(a, bits)
    case None => None
    case Some(addresses) => Some(Target(CidrText(Masked(a, 32 - bits), bits), addresses))
  }

  function ParseTarget(value: string, v6: V6Parser): Option<Target> {
    var s := TrimSpace(value);
    match ParseAddr(s, v6)
    case Some(address) => if Scannable(address) then Some(Target(Dotted(address.addr), [address.addr])) else None
    case None =>
      match SplitAddressRange(s, SEPARATORS, v6)
      case Some((start, end)) => TargetOfRange(start, end)
      case None => TargetOfPrefix(s, v6)
  }

  // ---------- printed addresses parse back ----------

  lemma NumeralRoundTrip(n: nat, max: nat)
    requires n <= max
    ensures ParseNumeral(Decimal(n), max) == Some(n)
  {
    DecimalRoundTrip(n);
  }

  /** What Dotted joins. */
  function Fields(o: seq<nat>): (f: seq<string>)
    ensures |f| == |o| && forall i :: 0 <= i < |f| ==> f[i] == Decimal(o[i])
  {
    if o == [] then [] else [Decimal(o[0])] + Fields(o[1..])
  }

  lemma {:induction false} FieldsParse(o: seq<nat>)
    requires forall i :: 0 <= i < |o| ==> o[i] <= 255
    ensures ParseOctets(Fields(o)) == Some(o)
  {
    if o != [] {
      NumeralRoundTrip(o[0], 255);
      FieldsParse(o[1..]);
      assert o == [o[0]] + o[1..];
    }
  }

  lemma DottedParses(a: Addr)
    ensures ParseV4(Dotted(a)) == Some(a)
  {
    var o := Octets(a);
    forall i | 0 <= i < |o| ensures '.' !in Fields(o)[i] {
      DecimalRoundTrip(o[i]);
    }
    SplitJoin(Fields(o), '.');
    FieldsParse(o);
  }

  /** Distinct addresses have distinct texts. */
  lemma DottedInjective(a: Addr, b: Addr)
    requires Dotted(a) == Dotted(b)
    ensures a == b
  {
    DottedParses(a);
    DottedParses(b);
  }

  predicate AddressText(s: string) { forall i :: 0 <= i < |s| ==> IsDigit(s[i]) || s[i] == '.' }

  lemma {:induction false} JoinedFieldsShape(o: seq<nat>)
    requires o != []
    ensures var s := Join(Fields(o), '.');
            s != "" && AddressText(s) && IsDigit(s[0]) && IsDigit(s[|s| - 1])
  {
    DecimalRoundTrip(o[0]);
    if |o| > 1 {
      JoinedFieldsShape(o[1..]);
      assert Fields(o)[1..] == Fields(o[1..]);
    }
  }

  lemma DottedShape(a: Addr)
    ensures Dotted(a) != "" && AddressText(Dotted(a))
    ensures IsDigit(Dotted(a)[0]) && IsDigit(Dotted(a)[|Dotted(a)| - 1])
  {
    JoinedFieldsShape(Octets(a));
  }

  lemma {:induction false} FirstMarkSkipsDigits(digits: string, rest: string)
    requires AllDigits(digits)
    ensures FirstMark(digits + rest) == FirstMark(rest)
  {
    if digits == "" {
      assert digits + rest == rest;
    } else {
      assert (digits + rest)[1..] == digits[1..] + rest;
      FirstMarkSkipsDigits(digits[1..], rest);
    }
  }

  /** A text that starts with a printed address is tried as IPv4. */
  lemma DottedMark(a: Addr, rest: string)
    ensures FirstMark(Dotted(a) + rest) == Some('.')
  {
    var f := Fields(Octets(a));
    var tail := Join(f[1..], '.');
    assert Dotted(a) + rest == f[0] + ("." + tail + rest);
    DecimalRoundTrip(Octets(a)[0]);
    FirstMarkSkipsDigits(f[0], "." + tail + rest);
  }

  lemma ParseDotted(a: Addr, v6: V6Parser)
    ensures ParseAddr(Dotted(a), v6) == Some(V4(a))
  {
    DottedMark(a, "");
    assert Dotted(a) + "" == Dotted(a);
    DottedParses(a);
  }

  /** Anything but digits and dots keeps a text from being an IPv4 address. */
  lemma OddCharacterIsNotV4(s: string, x: char)
    requires x in s && x != '.' && !IsDigit(x)
    ensures ParseV4(s) == None
  {
    SplitKeepsCharacters(s, '.', x);
    var i :| 0 <= i < |Split(s, '.')| && x in Split(s, '.')[i];
    OddFieldFails(Split(s, '.'), i, x);
  }

  lemma {:induction false} OddFieldFails(fields: seq<string>, i: nat, x: char)
    requires i < |fields| && x in fields[i] && !IsDigit(x)
    ensures ParseOctets(fields) == None
  {
    if i == 0 {
      assert !AllDigits(fields[0]);
    } else {
      OddFieldFails(fields[1..], i - 1, x);
    }
  }

  // ---------- the canonical text parses back to the same target ----------

  lemma SingleRoundTrip(a: Addr, v6: V6Parser)
    requires Scannable(V4(a))
    ensures ParseTarget(Dotted(a), v6) == Some(Target(Dotted(a), [a]))
  {
    hide Dotted, ParseAddr, TrimSpace, SplitAddressRange, TargetOfPrefix;
    DottedShape(a);
    TrimOfTrimmed(Dotted(a));
    ParseDotted(a, v6);
  }

  /** A printed address followed by a character no address contains is not an address itself. */
  lemma MarkedTextIsNotAddress(a: Addr, c: char, rest: string, v6: V6Parser)
    requires c != '.' && !IsDigit(c)
    ensures ParseAddr(Dotted(a) + [c] + rest, v6) == None
  {
    hide ParseV4, Dotted;
    var s := Dotted(a) + [c] + rest;
    assert s == Dotted(a) + ([c] + rest);
    DottedMark(a, [c] + rest);
    assert s[|Dotted(a)|] == c;
    OddCharacterIsNotV4(s, c);
  }

  lemma RangeSplits(start: Addr, end: Addr, c: char, v6: V6Parser)
    requires c != '.' && !IsDigit(c)
    ensures RangeBy(Dotted(start) + [c] + Dotted(end), c, v6) == Some((V4(start), V4(end)))
  {
    hide ParseV4, Dotted, TrimSpace, ParseAddr, Split;
    DottedShape(start);
    DottedShape(end);
    SplitJoin([Dotted(start), Dotted(end)], c);
    assert Join([Dotted(start), Dotted(end)], c) == Dotted(start) + [c] + Dotted(end);
    TrimOfTrimmed(Dotted(start));
    TrimOfTrimmed(Dotted(end));
    ParseDotted(start, v6);
    ParseDotted(end, v6);
  }

  /** Hyphen, en dash and em dash all separate the ends of a range, with one meaning. */
  lemma RangeText(start: Addr, end: Addr, k: nat, v6: V6Parser)
    requires k < |SEPARATORS|
    ensures ParseTarget(Dotted(start) + [SEPARATORS[k]] + Dotted(end), v6) == TargetOfRange(V4(start), V4(end))
  {
    hide ParseV4, Dotted, TrimSpace, ParseAddr, TargetOfRange;
    var c := SEPARATORS[k];
    var s := Dotted(start) + [c] + Dotted(end);
    DottedShape(start);
    DottedShape(end);
    TrimOfTrimmed(s);
    MarkedTextIsNotAddress(start, c, Dotted(end), v6);
    RangeSplits(start, end, c, v6);
    forall j | 0 <= j < k ensures SEPARATORS[j] !in s {
    }
    FirstSeparatorWins(s, SEPARATORS, k, v6);
  }

  lemma {:induction false} FirstSeparatorWins(s: string, separators: seq<char>, k: nat, v6: V6Parser)
    requires k < |separators| && forall j :: 0 <= j < k ==> separators[j] !in s
    requires RangeBy(s, separators[k], v6).Some?
    ensures SplitAddressRange(s, separators, v6) == RangeBy(s, separators[k], v6)
  {
    if k > 0 {
      SplitNothing(s, separators[0]);
      FirstSeparatorWins(s, separators[1..], k - 1, v6);
    }
  }

  lemma {:induction false} NoSeparatorNoRange(s: string, separators: seq<char>, v6: V6Parser)
    requires forall i :: 0 <= i < |separators| ==> separators[i] !in s
    ensures SplitAddressRange(s, separators, v6) == None
  {
    if separators != [] {
      SplitNothing(s, separators[0]);
      NoSeparatorNoRange(s, separators[1..], v6);
    }
  }

  /** A CIDR text is taken for neither an address nor a range. */
  lemma CidrTextIsCidr(a: Addr, bits: nat, v6: V6Parser)
    ensures ParseTarget(CidrText(a, bits), v6) == TargetOfPrefix(CidrText(a, bits), v6)
  {
    hide ParseV4, Dotted, TrimSpace, ParseAddr, TargetOfPrefix, SplitAddressRange;
    var s := CidrText(a, bits);
    DottedShape(a);
    DecimalRoundTrip(bits);
    TrimOfTrimmed(s);
    assert s == Dotted(a) + ['/'] + Decimal(bits);
    MarkedTextIsNotAddress(a, '/', Decimal(bits), v6);
    NoSeparatorNoRange(s, SEPARATORS, v6);
  }

  lemma {:induction false} CutLastOf(head: string, c: char, tail: string)
    requires c !in tail
    ensures CutLast(head + [c] + tail, c) == Some((head, tail))
  {
    var s := head + [c] + tail;
    if head == "" {
      assert s[1..] == tail;
    } else {
      assert s[1..] == head[1..] + [c] + tail && head == [head[0]] + head[1..];
      CutLastOf(head[1..], c, tail);
    }
  }

  lemma CidrTextParses(a: Addr, bits: nat, v6: V6Parser)
    requires bits <= 32
    ensures TargetOfPrefix(CidrText(a, bits), v6) == TargetOfBlock(a, bits)
  {
    hide ParseV4, Dotted, ParseAddr, PrefixAddresses, Masked, ParseNumeral;
    DecimalRoundTrip(bits);
    CutLastOf(Dotted(a), '/', Decimal(bits));
    ParseDotted(a, v6);
    NumeralRoundTrip(bits, 32);
  }

  lemma CidrRoundTrip(a: Addr, bits: nat, v6: V6Parser)
    requires MINIMUM_PREFIX_BITS <= bits <= 32
    ensures ParseTarget(CidrText(Masked(a, 32 - bits), bits), v6) == TargetOfBlock(a, bits)
  {
    hide ParseTarget, TargetOfPrefix, PrefixAddresses, CidrText, Masked;
    var base := Masked(a, 32 - bits);
    PrefixIsMasked(a, bits);
    MaskIdempotent(a, 32 - bits);
    CidrTextIsCidr(base, bits, v6);
    CidrTextParses(base, bits, v6);
  }

  /** The canonical block is the block itself. */
  lemma PrefixIsMasked(a: Addr, bits: nat)
    requires MINIMUM_PREFIX_BITS <= bits <= 32
    ensures PrefixAddresses(Masked(a, 32 - bits), bits) == PrefixAddresses(a, bits)
  {
    MaskIdempotent(a, 32 - bits);
  }

  /** For every accepted text the canonical text is accepted too and means the same target: same text, same addresses. */
  lemma CanonicalRoundTrip(value: string, v6: V6Parser)
    ensures match ParseTarget(value, v6)
            case None => true
            case Some(target) => ParseTarget(target.canonical, v6) == Some(target)
  {
    hide ParseV4, Split, TrimSpace, Join, Dotted, FirstMark;
    if ParseTarget(value, v6).Some? {
      var s := TrimSpace(value);
      if ParseAddr(s, v6).Some? {
        SingleRoundTrip(ParseAddr(s, v6).value.addr, v6);
      } else if SplitAddressRange(s, SEPARATORS, v6).Some? {
        var (start, end) := SplitAddressRange(s, SEPARATORS, v6).value;
        RangeText(start.addr, end.addr, 0, v6);
      } else {
        var (head, tail) := CutLast(s, '/').value;
        CidrRoundTrip(ParseAddr(head, v6).value.addr, ParseNumeral(tail, 32).value, v6);
      }
    }
  }

  // ---------- exactly which texts are accepted ----------

  lemma NumeralExactly(s: string, max: nat, n: nat)
    ensures ParseNumeral(s, max) == Some(n) <==> n <= max && s == Decimal(n)
  {
    if ParseNumeral(s, max) == Some(n) {
      PrintedValue(s);
    }
    if n <= max {
      NumeralRoundTrip(n, max);
    }
  }

  lemma {:induction false} OctetsPrinted(fields: seq<string>)
    requires ParseOctets(fields).Some?
    ensures Fields(ParseOctets(fields).value) == fields
  {
    if fields != [] {
      NumeralExactly(fields[0], 255, ParseNumeral(fields[0], 255).value);
      OctetsPrinted(fields[1..]);
      assert fields == [fields[0]] + fields[1..];
    }
  }

  lemma OctetsUnique(o: seq<nat>)
    requires |o| == 4 && forall i :: 0 <= i < 4 ==> o[i] <= 255
    ensures Octets(Combine(o)) == o
  {
    var a := Combine(o);
    var higher := o[0] * 256 + o[1];
    var high := higher * 256 + o[2];
    assert a / 256 == high && a % 256 == o[3];
    assert high / 256 == higher && high % 256 == o[2];
    assert higher / 256 == o[0] && higher % 256 == o[1];
  }

  /** An IPv4 text is an address exactly if it is the printed form of it. */
  lemma V4Exactly(s: string, a: Addr)
    ensures ParseV4(s) == Some(a) <==> s == Dotted(a)
  {
    DottedParses(a);
    if ParseV4(s) == Some(a) {
      var o := ParseOctets(Split(s, '.')).value;
      OctetsPrinted(Split(s, '.'));
      OctetsUnique(o);
      JoinSplit(s, '.');
    }
  }

  lemma AddressExactly(s: string, a: Addr, v6: V6Parser)
    ensures ParseAddr(s, v6) == Some(V4(a)) <==> s == Dotted(a)
  {
    V4Exactly(s, a);
    ParseDotted(a, v6);
  }

  predicate SingleText(s: string, t: Target, a: Addr) {
    s == Dotted(a) && Scannable(V4(a)) && t == Target(s, [a])
  }

  predicate BlockText(s: string, t: Target, a: Addr, bits: nat) {
    && bits <= 32 && s == CidrText(a, bits) && PrefixAddresses(a, bits).Some?
    && t == Target(CidrText(Masked(a, 32 - bits), bits), PrefixAddresses(a, bits).value)
  }

  /** Two printed addresses, each with white space around it if need be, and one of the three separators between them. */
  predicate RangeShape(s: string, left: string, right: string, k: nat, start: Addr, end: Addr) {
    && k < |SEPARATORS| && s == left + [SEPARATORS[k]] + right
    && TrimSpace(left) == Dotted(start) && TrimSpace(right) == Dotted(end)
  }

  predicate RangeOf(t: Target, start: Addr, end: Addr) {
    var addresses := RangeAddresses(V4(start), V4(end));
    addresses.Some? && t == Target(Dotted(start) + "-" + Dotted(end), addresses.value)
  }

  ghost predicate IsRangeText(s: string, t: Target) {
    exists left, right, k: nat, start, end :: RangeShape(s, left, right, k, start, end) && RangeOf(t, start, end)
  }

  /** A text with a printed address before a separator holds no other separator and no mark of its own. */
  lemma RangeShapeSplits(s: string, left: string, right: string, k: nat, start: Addr, end: Addr, v6: V6Parser)
    requires RangeShape(s, left, right, k, start, end)
    ensures ParseAddr(s, v6) == None || ParseAddr(s, v6) == Some(V6)
    ensures RangeBy(s, SEPARATORS[k], v6) == Some((V4(start), V4(end)))
    ensures forall j :: 0 <= j < |SEPARATORS| && j != k ==> SEPARATORS[j] !in s
  {
    hide ParseV4, Dotted, TrimSpace, Split;
    var c := SEPARATORS[k];
    DottedShape(start);
    DottedShape(end);
    forall x | x in SEPARATORS ensures x !in left && x !in right {
      TrimKeepsCharacters(left, x);
      TrimKeepsCharacters(right, x);
    }
    SplitJoin([left, right], c);
    assert Join([left, right], c) == s;
    ParseDotted(start, v6);
    ParseDotted(end, v6);
    assert s[|left|] == c;
    OddCharacterIsNotV4(s, c);
  }

  lemma {:induction false} OtherSeparatorsFail(s: string, separators: seq<char>, v6: V6Parser)
    requires SplitAddressRange(s, separators, v6).Some?
    ensures exists c :: c in separators && RangeBy(s, c, v6) == SplitAddressRange(s, separators, v6)
  {
    if RangeBy(s, separators[0], v6).None? {
      OtherSeparatorsFail(s, separators[1..], v6);
    }
  }

  /** A range that was read has the shape of one. */
  lemma RangeWasShaped(s: string, v6: V6Parser, start: Addr, end: Addr)
    requires SplitAddressRange(s, SEPARATORS, v6) == Some((V4(start), V4(end)))
    ensures exists left, right, k: nat :: RangeShape(s, left, right, k, start, end)
  {
    hide ParseAddr, TrimSpace, Dotted, Split;
    OtherSeparatorsFail(s, SEPARATORS, v6);
    var c :| c in SEPARATORS && RangeBy(s, c, v6) == Some((V4(start), V4(end)));
    var k :| 0 <= k < |SEPARATORS| && SEPARATORS[k] == c;
    var parts := Split(s, c);
    JoinSplit(s, c);
    assert s == parts[0] + [c] + parts[1] by { assert parts[1..] == [parts[1]]; }
    AddressExactly(TrimSpace(parts[0]), start, v6);
    AddressExactly(TrimSpace(parts[1]), end, v6);
    assert RangeShape(s, parts[0], parts[1], k, start, end);
  }

  lemma RangeShapeParses(value: string, t: Target, left: string, right: string, k: nat, start: Addr, end: Addr, v6: V6Parser)
    requires RangeShape(TrimSpace(value), left, right, k, start, end) && RangeOf(t, start, end) && ':' !in value
    ensures ParseTarget(value, v6) == Some(t)
  {
    hide Dotted, RangeAddresses, ParseV4, TargetOfPrefix, TrimSpace;
    var s := TrimSpace(value);
    RangeShapeSplits(s, left, right, k, start, end, v6);
    TrimKeepsCharacters(value, ':');
    NotV6(s, v6);
    hide RangeBy, ParseAddr;
    FirstSeparatorWins(s, SEPARATORS, k, v6);
  }

  lemma {:induction false} MarkIsInText(s: string)
    ensures FirstMark(s).Some? ==> FirstMark(s).value in s
  {
    if s != "" {
      MarkIsInText(s[1..]);
    }
  }

  lemma NotV6(s: string, v6: V6Parser)
    requires ':' !in s
    ensures ParseAddr(s, v6) != Some(V6)
  {
    MarkIsInText(s);
  }

  lemma BlockWasShaped(s: string, v6: V6Parser, t: Target)
    requires TargetOfPrefix(s, v6) == Some(t)
    ensures exists a, bits: nat :: BlockText(s, t, a, bits)
  {
    hide ParseAddr, ParseNumeral, Dotted, Masked, PrefixAddresses;
    var (head, tail) := CutLast(s, '/').value;
    var a, bits := ParseAddr(head, v6).value.addr, ParseNumeral(tail, 32).value;
    AddressExactly(head, a, v6);
    NumeralExactly(tail, 32, bits);
    assert BlockText(s, t, a, bits);
  }

  lemma BlockParses(value: string, t: Target, a: Addr, bits: nat, v6: V6Parser)
    requires BlockText(TrimSpace(value), t, a, bits)
    ensures ParseTarget(value, v6) == Some(t)
  {
    hide TargetOfPrefix, TrimSpace, PrefixAddresses, Masked, ParseAddr, SplitAddressRange, TargetOfRange;
    CidrTextIsCidr(a, bits, v6);
    CidrTextParses(a, bits, v6);
    TrimOfTrimmed(value);
    TrimOfTrimmed(TrimSpace(value));
  }

  /**
    * Exactly which texts are targets, up to white space around them: a printed scannable address; a printed address, a
    * slash and a printed length, whose block is accepted; and two printed addresses around a hyphen, an en dash or an em
    * dash, with any white space around each, whose range is accepted.
    */
  lemma TargetTextExactly(value: string, t: Target, v6: V6Parser)
    ensures ParseTarget(value, v6) == Some(t) <==>
              || (exists a :: SingleText(TrimSpace(value), t, a))
              || (exists a, bits: nat :: BlockText(TrimSpace(value), t, a, bits))
              || IsRangeText(TrimSpace(value), t)
  {
    var s := TrimSpace(value);
    if ParseTarget(value, v6) == Some(t) {
      AcceptedIsShaped(value, t, v6);
    }
    if a :| SingleText(s, t, a) {
      AddressExactly(s, a, v6);
    } else if a, bits: nat :| BlockText(s, t, a, bits) {
      BlockParses(value, t, a, bits, v6);
    } else if left, right, k: nat, start, end :| RangeShape(s, left, right, k, start, end) && RangeOf(t, start, end) {
      NoColonInShape(value, left, right, k, start, end);
      RangeShapeParses(value, t, left, right, k, start, end, v6);
    }
  }

  lemma NoColonInShape(value: string, left: string, right: string, k: nat, start: Addr, end: Addr)
    requires RangeShape(TrimSpace(value), left, right, k, start, end)
    ensures ':' !in value
  {
    hide Dotted, TrimSpace;
    DottedShape(start);
    DottedShape(end);
    TrimKeepsCharacters(left, ':');
    TrimKeepsCharacters(right, ':');
    TrimKeepsCharacters(value, ':');
  }

  lemma AcceptedIsShaped(value: string, t: Target, v6: V6Parser)
    requires ParseTarget(value, v6) == Some(t)
    ensures || (exists a :: SingleText(TrimSpace(value), t, a))
            || (exists a, bits: nat :: BlockText(TrimSpace(value), t, a, bits))
            || IsRangeText(TrimSpace(value), t)
  {
    hide TrimSpace, Dotted, ParseAddr, SplitAddressRange, TargetOfPrefix, RangeAddresses;
    var s := TrimSpace(value);
    if ParseAddr(s, v6).Some? {
      var a := ParseAddr(s, v6).value.addr;
      AddressExactly(s, a, v6);
      assert SingleText(s, t, a);
    } else if SplitAddressRange(s, SEPARATORS, v6).Some? {
      var (x, y) := SplitAddressRange(s, SEPARATORS, v6).value;
      RangeAcceptedIff(x, y);
      RangeWasShaped(s, v6, x.addr, y.addr);
      var left, right, k: nat :| RangeShape(s, left, right, k, x.addr, y.addr);
      assert RangeOf(t, x.addr, y.addr);
    } else {
      BlockWasShaped(s, v6, t);
    }
  }

  // ---------- what every accepted target is ----------

  /** Between 1 and 256 consecutive IPv4 addresses, none unspecified or multicast. */
  lemma AcceptedTargetIsBounded(value: string, v6: V6Parser)
    ensures match ParseTarget(value, v6)
            case None => true
            case Some(Target(_, s)) => 1 <= |s| <= MAXIMUM_ADDRESSES && Consecutive(s) && AllScannable(s)
  {
    hide ParseV4, Split, TrimSpace, Join, Dotted, FirstMark;
    if ParseTarget(value, v6).Some? {
      var s := TrimSpace(value);
      if ParseAddr(s, v6).Some? {
      } else if SplitAddressRange(s, SEPARATORS, v6).Some? {
        var (start, end) := SplitAddressRange(s, SEPARATORS, v6).value;
        RangeTargetIsSafe(start, end);
      } else {
        var (head, tail) := CutLast(s, '/').value;
        PrefixTargetIsSafe(ParseAddr(head, v6).value.addr, ParseNumeral(tail, 32).value);
      }
    }
  }

  /** No address is listed twice, and no two listed addresses print alike. */
  lemma AcceptedTargetHasDistinctTexts(value: string, v6: V6Parser)
    ensures match ParseTarget(value, v6)
            case None => true
            case Some(Target(_, s)) => forall i, j :: 0 <= i < j < |s| ==> s[i] < s[j] && Dotted(s[i]) != Dotted(s[j])
  {
    hide ParseTarget, Dotted, AllScannable;
    AcceptedTargetIsBounded(value, v6);
    if ParseTarget(value, v6).Some? {
      var s := ParseTarget(value, v6).value.addresses;
      forall i, j | 0 <= i < j < |s| ensures Dotted(s[i]) != Dotted(s[j]) {
        if Dotted(s[i]) == Dotted(s[j]) {
          DottedInjective(s[i], s[j]);
        }
      }
    }
  }

  // ---------- IPv6 is refused ----------

  lemma ColonIsNotV4(s: string, v6: V6Parser)
    requires ':' in s && ParseAddr(s, v6).Some?
    ensures ParseAddr(s, v6).value.V6?
  {
    OddCharacterIsNotV4(s, ':');
  }

  lemma {:induction false} ColonRange(s: string, separators: seq<char>, v6: V6Parser)
    requires ':' in s && ':' !in separators && SplitAddressRange(s, separators, v6).Some?
    ensures var r := SplitAddressRange(s, separators, v6).value; r.0.V6? || r.1.V6?
  {
    hide ParseV4, Split, TrimSpace, FirstMark;
    if RangeBy(s, separators[0], v6).Some? {
      var parts := Split(s, separators[0]);
      SplitKeepsCharacters(s, separators[0], ':');
      var i :| 0 <= i < |parts| && ':' in parts[i];
      TrimKeepsCharacters(parts[i], ':');
      ColonIsNotV4(TrimSpace(parts[i]), v6);
    } else {
      ColonRange(s, separators[1..], v6);
    }
  }

  /** Whatever the IPv6 parser accepts, no text with a colon is a target: IPv6 addresses, blocks and mixed ranges are all refused. */
  lemma ColonIsRefused(value: string, v6: V6Parser)
    requires ':' in value
    ensures ParseTarget(value, v6) == None
  {
    hide ParseV4, Split, TrimSpace, Join, FirstMark;
    var s := TrimSpace(value);
    TrimKeepsCharacters(value, ':');
    if ParseAddr(s, v6).Some? {
      ColonIsNotV4(s, v6);
    } else if SplitAddressRange(s, SEPARATORS, v6).Some? {
      ColonRange(s, SEPARATORS, v6);
    } else {
      if CutLast(s, '/').Some? {
        var (head, tail) := CutLast(s, '/').value;
        if ':' in head {
          if ParseAddr(head, v6).Some? {
            ColonIsNotV4(head, v6);
          }
        } else {
          assert ':' in tail && !AllDigits(tail);
        }
      }
    }
  }
}
