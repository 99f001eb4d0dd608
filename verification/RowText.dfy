/** Open ports and fingerprints: their normal forms, and the comma-joined row text they are read back from. */
module RowText {
  import opened Text
  import opened Ordered
  import opened Fingerprints

  type Port = p: nat | p <= 65535

  // ---------- ports ----------

  function PortLess(): (Port, Port) -> bool { (a: Port, b: Port) => a < b }

  function NonZero(ports: seq<Port>): (r: seq<Port>)
    ensures forall p :: p in r <==> p in ports && p != 0
  {
    if ports == [] then [] else (if ports[0] != 0 then [ports[0]] else []) + NonZero(ports[1..])
  }

  function NormalizedPorts(ports: seq<Port>): seq<Port> { Sorted(PortLess(), NonZero(ports)) }

  method NormalizePorts(ports: seq<Port>) returns (result: seq<Port>)
    ensures result == NormalizedPorts(ports)
  {
    var unique: set<Port> := {};
    for i := 0 to |ports|
      invariant forall p :: p in unique <==> p in ports[..i] && p != 0
    {
      assert ports[..i + 1] == ports[..i] + [ports[i]];
      if ports[i] != 0 {
        unique := unique + {ports[i]};
      }
    }
    assert ports[..|ports|] == ports;
    result := CollectSorted(PortLess(), unique);
    SortedSpec(PortLess(), NonZero(ports));
    IncreasingUnique(PortLess(), result, NormalizedPorts(ports));
  }

  /** Sorted, unique, nonzero, and nothing else lost or added. */
  lemma NormalizedPortsSpec(ports: seq<Port>)
    ensures Increasing(PortLess(), NormalizedPorts(ports))
    ensures forall p :: p in NormalizedPorts(ports) <==> p in ports && p != 0
  {
    SortedSpec(PortLess(), NonZero(ports));
  }

  lemma {:induction false} NonZeroOfNonZero(ports: seq<Port>)
    requires 0 !in ports
    ensures NonZero(ports) == ports
  {
    if ports != [] {
      assert ports == [ports[0]] + ports[1..];
      NonZeroOfNonZero(ports[1..]);
    }
  }

  /** The normal form depends only on which nonzero ports occur: it is idempotent and blind to order and repetition. */
  lemma NormalizedPortsByMembers(ports: seq<Port>, others: seq<Port>)
    requires forall p :: p in ports && p != 0 <==> p in others && p != 0
    ensures NormalizedPorts(ports) == NormalizedPorts(others)
    ensures NormalizedPorts(NormalizedPorts(ports)) == NormalizedPorts(ports)
  {
    SortedByMembers(PortLess(), NonZero(ports), NonZero(others));
    NormalizedPortsSpec(ports);
    NonZeroOfNonZero(NormalizedPorts(ports));
    SortedIdempotent(PortLess(), NonZero(ports));
  }

  /** strconv.ParseUint(field, 10, 16): digits only, leading zeros allowed. */
  function ParsePort(field: string): Option<Port> {
    if field == "" || !AllDigits(field) || ValueOf(field) > 65535 then None else Some(ValueOf(field))
  }

  function PortsOfFields(fields: seq<string>): seq<Port> {
    if fields == [] then []
    else
      var port := ParsePort(fields[0]);
      (if port.Some? && port.value != 0 then [port.value] else []) + PortsOfFields(fields[1..])
  }

  function ParsePorts(text: string): seq<Port> { NormalizedPorts(PortsOfFields(Split(text, ','))) }

  lemma PortsFrom(fields: seq<string>, i: nat)
    requires i < |fields|
    ensures var port := ParsePort(fields[i]);
            PortsOfFields(fields[i..]) == (if port.Some? && port.value != 0 then [port.value] else []) + PortsOfFields(fields[i + 1..])
  {
    hide ParsePort;
    assert fields[i..][0] == fields[i] && fields[i..][1..] == fields[i + 1..];
  }

  /** The loop of parsePorts. */
  method ReadPorts(text: string) returns (result: seq<Port>)
    ensures result == ParsePorts(text)
  {
    hide NormalizedPorts, Split, ParsePort;
    var fields := Split(text, ',');
    var ports: seq<Port> := [];
    for i := 0 to |fields|
      invariant ports + PortsOfFields(fields[i..]) == PortsOfFields(fields)
    {
      PortsFrom(fields, i);
      hide PortsOfFields;
      var port := ParsePort(fields[i]);
      if port.Some? && port.value != 0 {
        ports := ports + [port.value];
      }
    }
    assert fields[|fields|..] == [] && ports + [] == ports;
    result := NormalizePorts(ports);
  }

  function PortTexts(rows: seq<Port>): (texts: seq<string>)
    ensures |texts| == |rows| && forall i :: 0 <= i < |rows| ==> texts[i] == Decimal(rows[i])
  {
    if rows == [] then [] else [Decimal(rows[0])] + PortTexts(rows[1..])
  }

  lemma PrintedPort(port: Port)
    ensures ParsePort(Decimal(port)) == Some(port)
  {
    DecimalRoundTrip(port);
  }

  lemma {:induction false} PrintedPortsParse(rows: seq<Port>)
    requires 0 !in rows
    ensures PortsOfFields(PortTexts(rows)) == rows
  {
    if rows != [] {
      PrintedPort(rows[0]);
      hide Decimal, ParsePort, ValueOf;
      PrintedPortsParse(rows[1..]);
      assert rows == [rows[0]] + rows[1..];
    }
  }

  /** Whatever order the rows of a device come in, reading their joined text gives back the normal form that was stored. */
  lemma PortRowsRoundTrip(ports: seq<Port>, rows: seq<Port>)
    requires multiset(rows) == multiset(NormalizedPorts(ports))
    ensures ParsePorts(Join(PortTexts(rows), ',')) == NormalizedPorts(ports)
  {
    MultisetMembers(rows, NormalizedPorts(ports));
    NormalizedPortsSpec(ports);
    if rows == [] {
      assert PortsOfFields([""]) == [];
      assert NormalizedPorts(ports) == [];
    } else {
      PrintedPortsSplit(rows);
      PrintedPortsParse(rows);
      NormalizedPortsByMembers(ports, rows);
    }
  }

  lemma PrintedPortsSplit(rows: seq<Port>)
    requires rows != []
    ensures Split(Join(PortTexts(rows), ','), ',') == PortTexts(rows)
  {
    forall i | 0 <= i < |rows| ensures ',' !in PortTexts(rows)[i] {
      DecimalRoundTrip(rows[i]);
    }
    SplitJoin(PortTexts(rows), ',');
  }

  /** formatPorts: the text shown to people has a space after each comma. */
  function FormatPorts(ports: seq<Port>): string {
    if ports == [] then "" else if |ports| == 1 then Decimal(ports[0]) else Decimal(ports[0]) + ", " + FormatPorts(ports[1..])
  }

  lemma {:induction false} SpacedFieldsAreDropped(ports: seq<Port>)
    requires ports != []
    ensures PortsOfFields(Split(" " + FormatPorts(ports), ',')) == []
  {
    var head := " " + Decimal(ports[0]);
    DecimalRoundTrip(ports[0]);
    assert head[0] == ' ' && !AllDigits(head);
    assert ParsePort(head) == None;
    hide Decimal, Split, ValueOf, ParsePort;
    if |ports| == 1 {
      SplitNothing(head, ',');
    } else {
      assert " " + FormatPorts(ports) == head + [','] + (" " + FormatPorts(ports[1..]));
      SplitFirst(head, " " + FormatPorts(ports[1..]), ',');
      SpacedFieldsAreDropped(ports[1..]);
    }
  }

  lemma ShownPortsFields(ports: seq<Port>)
    requires ports != [] && 0 !in ports
    ensures PortsOfFields(Split(FormatPorts(ports), ',')) == [ports[0]]
  {
    DecimalRoundTrip(ports[0]);
    var text := Decimal(ports[0]);
    assert ParsePort(text) == Some(ports[0]);
    hide Decimal, Split, ValueOf;
    if |ports| == 1 {
      SplitNothing(text, ',');
    } else {
      var rest := " " + FormatPorts(ports[1..]);
      assert FormatPorts(ports) == text + [','] + rest;
      SplitFirst(text, rest, ',');
      SpacedFieldsAreDropped(ports[1..]);
    }
  }

  /** The shown text is not a storage format: reading it back gives the list again exactly when it has at most one port, because every later field starts with a space. */
  lemma ShownPortsReadBack(ports: seq<Port>)
    requires NormalizedPorts(ports) == ports
    ensures ParsePorts(FormatPorts(ports)) == ports <==> |ports| <= 1
    ensures |ports| > 1 ==> ParsePorts(FormatPorts(ports)) == [ports[0]]
  {
    NormalizedPortsSpec(ports);
    if ports == [] {
      assert PortsOfFields([""]) == [];
    } else {
      hide FormatPorts, Split;
      ShownPortsFields(ports);
      assert NonZero([ports[0]]) == [ports[0]] by { assert ports[0] in ports; }
      assert NormalizedPorts([ports[0]]) == [ports[0]];
      assert |ports| == 1 ==> ports == [ports[0]];
    }
  }

  /** So two ports are enough to lose one. */
  lemma TwoShownPortsLoseOne()
    ensures NormalizedPorts([22, 80]) == [22, 80] && ParsePorts(FormatPorts([22, 80])) == [22]
  {
    NormalizedPortsSpec([22, 80]);
    IncreasingUnique(PortLess(), NormalizedPorts([22, 80]), [22, 80]);
    ShownPortsReadBack([22, 80]);
  }

  /** preferredPort: 443, 80, 22, else the smallest. */
  function PreferredPort(ports: seq<Port>): Option<Port> {
    if 443 in ports then Some(443) else if 80 in ports then Some(80) else if 22 in ports then Some(22)
    else if ports == [] then None else Some(ports[0])
  }

  /** The detected port of a device: none without open ports; else 443, 80 or 22, in this order; else the smallest. */
  lemma DetectedPort(ports: seq<Port>)
    ensures var n, d := NormalizedPorts(ports), PreferredPort(NormalizedPorts(ports));
            && (d.None? <==> forall p :: p in ports ==> p == 0)
            && (d.Some? ==> d.value in ports && d.value != 0)
            && (443 in ports ==> d == Some(443))
            && (443 !in ports && 80 in ports ==> d == Some(80))
            && (443 !in ports && 80 !in ports && 22 in ports ==> d == Some(22))
            && (443 !in ports && 80 !in ports && 22 !in ports && d.Some? ==> forall p :: p in ports && p != 0 ==> d.value <= p)
  {
    NormalizedPortsSpec(ports);
    hide NormalizedPorts;
    var n := NormalizedPorts(ports);
    if n == [] {
      forall p | p in ports ensures p == 0 { assert p !in n; }
    } else {
      assert n[0] in n;
      forall p | p in n ensures n[0] <= p {
        var i :| 0 <= i < |n| && n[i] == p;
      }
    }
  }

  /** Which field is read as a port: digits only, any number of leading zeros, at most 65535. */
  lemma PortFieldExactly(field: string, p: Port)
    ensures ParsePort(field) == Some(p) <==> field != "" && (forall i :: 0 <= i < |field| ==> '0' <= field[i] <= '9') && ValueOf(field) == p
  {
  }

  // ---------- fingerprints ----------

  const SSH: string := "ssh-host-key"
  const TLS: string := "tls-certificate"
  const MAXIMUM_VALUE_BYTES: nat := 160

  predicate ForbiddenCharacter(c: char) { c == ',' || c == '=' || c == '\0' || c == '\r' || c == '\n' }

  predicate ValidFingerprint(f: Fingerprint) {
    && (f.kind == SSH || f.kind == TLS)
    && f.value != "" && ByteLength(f.value) <= MAXIMUM_VALUE_BYTES
    && forall i :: 0 <= i < |f.value| ==> !ForbiddenCharacter(f.value[i])
  }

  function TrimmedFingerprint(f: Fingerprint): Fingerprint { Fingerprint(TrimSpace(f.kind), TrimSpace(f.value)) }

  function FingerprintLess(): (Fingerprint, Fingerprint) -> bool {
    (a: Fingerprint, b: Fingerprint) => if a.kind == b.kind then Less(a.value, b.value) else Less(a.kind, b.kind)
  }

  lemma FingerprintOrder()
    ensures StrictTotal(FingerprintLess())
  {
    var less := FingerprintLess();
    forall x ensures !less(x, x) { LessTrichotomy(x.value, x.value); }
    forall x, y | x != y ensures less(x, y) || less(y, x) {
      LessTrichotomy(x.kind, y.kind);
      LessTrichotomy(x.value, y.value);
    }
    forall x, y, z | less(x, y) && less(y, z) ensures less(x, z) {
      LessTrichotomy(x.kind, y.kind);
      LessTrichotomy(y.kind, z.kind);
      if x.kind == y.kind == z.kind {
        LessTransitive(x.value, y.value, z.value);
      } else if x.kind != y.kind && y.kind != z.kind {
        LessTransitive(x.kind, y.kind, z.kind);
        LessTrichotomy(x.kind, z.kind);
      }
    }
  }

  /** The valid fingerprints of a list, trimmed. */
  function Usable(fs: seq<Fingerprint>): (r: seq<Fingerprint>)
    ensures forall f :: f in r ==> ValidFingerprint(f)
  {
    if fs == [] then []
    else (if ValidFingerprint(TrimmedFingerprint(fs[0])) then [TrimmedFingerprint(fs[0])] else []) + Usable(fs[1..])
  }

  function NormalizedFingerprints(fs: seq<Fingerprint>): seq<Fingerprint> { Sorted(FingerprintLess(), Usable(fs)) }

  method NormalizeFingerprints(fs: seq<Fingerprint>) returns (result: seq<Fingerprint>)
    ensures result == NormalizedFingerprints(fs)
  {
    var unique: set<Fingerprint> := {};
    for i := 0 to |fs|
      invariant forall f :: f in unique || f in Usable(fs[i..]) <==> f in Usable(fs)
    {
      assert fs[i..][0] == fs[i] && fs[i..][1..] == fs[i + 1..];
      var f := TrimmedFingerprint(fs[i]);
      if !ValidFingerprint(f) {
        continue;
      }
      unique := unique + {f};
    }
    FingerprintOrder();
    result := CollectSorted(FingerprintLess(), unique);
    SortedSpec(FingerprintLess(), Usable(fs));
    IncreasingUnique(FingerprintLess(), result, NormalizedFingerprints(fs));
  }

  lemma CleanFingerprint(f: Fingerprint)
    requires ValidFingerprint(f) && Trimmed(f.value)
    ensures TrimmedFingerprint(f) == f
  {
    TrimOfTrimmed(f.kind);
    TrimOfTrimmed(f.value);
  }

  /** A list whose members are valid and trimmed is used as it is. */
  lemma {:induction false} UsableOfClean(fs: seq<Fingerprint>)
    requires forall i :: 0 <= i < |fs| ==> ValidFingerprint(fs[i]) && Trimmed(fs[i].value)
    ensures Usable(fs) == fs
  {
    hide ValidFingerprint, TrimmedFingerprint, Trimmed;
    if fs != [] {
      CleanFingerprint(fs[0]);
      UsableOfClean(fs[1..]);
      assert fs == [fs[0]] + fs[1..];
    }
  }

  lemma {:induction false} UsableIsClean(fs: seq<Fingerprint>)
    ensures forall f :: f in Usable(fs) ==> Trimmed(f.value)
  {
    if fs != [] {
      TrimOfTrimmed(fs[0].value);
      UsableIsClean(fs[1..]);
    }
  }

  /** Sorted, unique, trimmed, valid; the members are exactly the usable ones. */
  lemma NormalizedFingerprintsSpec(fs: seq<Fingerprint>)
    ensures Increasing(FingerprintLess(), NormalizedFingerprints(fs))
    ensures forall f :: f in NormalizedFingerprints(fs) <==> f in Usable(fs)
    ensures forall f :: f in NormalizedFingerprints(fs) ==> ValidFingerprint(f) && Trimmed(f.value)
  {
    FingerprintOrder();
    SortedSpec(FingerprintLess(), Usable(fs));
    UsableIsClean(fs);
  }

  /** Exactly which fingerprints are kept, and how they are ordered. */
  lemma NormalizedFingerprintsExactly(fs: seq<Fingerprint>, f: Fingerprint)
    ensures f in NormalizedFingerprints(fs) <==>
              && (f.kind == "ssh-host-key" || f.kind == "tls-certificate") && f.value != "" && ByteLength(f.value) <= 160
              && ',' !in f.value && '=' !in f.value && '\0' !in f.value && '\r' !in f.value && '\n' !in f.value
              && exists i :: 0 <= i < |fs| && TrimSpace(fs[i].kind) == f.kind && TrimSpace(fs[i].value) == f.value
    ensures forall i, j :: 0 <= i < j < |NormalizedFingerprints(fs)| ==>
              var x, y := NormalizedFingerprints(fs)[i], NormalizedFingerprints(fs)[j];
              Less(x.kind, y.kind) || (x.kind == y.kind && Less(x.value, y.value))
  {
    NormalizedFingerprintsSpec(fs);
    UsableOfPermutation(fs, f);
    hide NormalizedFingerprints, Usable, TrimSpace, Less;
    if i :| 0 <= i < |fs| && TrimSpace(fs[i].kind) == f.kind && TrimSpace(fs[i].value) == f.value {
      assert TrimmedFingerprint(fs[i]) == f;
    }
    assert ValidFingerprint(f) <==>
             && (f.kind == "ssh-host-key" || f.kind == "tls-certificate") && f.value != "" && ByteLength(f.value) <= 160
             && ',' !in f.value && '=' !in f.value && '\0' !in f.value && '\r' !in f.value && '\n' !in f.value;
  }

  /** The normal form of rows that hold the members of a normal form, in any order, is that normal form. */
  lemma NormalizedFingerprintsOfRows(fs: seq<Fingerprint>, rows: seq<Fingerprint>)
    requires multiset(rows) == multiset(NormalizedFingerprints(fs))
    ensures NormalizedFingerprints(rows) == NormalizedFingerprints(fs)
  {
    MultisetMembers(rows, NormalizedFingerprints(fs));
    NormalizedFingerprintsSpec(fs);
    UsableOfClean(rows);
    FingerprintOrder();
    SortedByMembers(FingerprintLess(), rows, Usable(fs));
  }

  lemma {:induction false} UsableOfPermutation(fs: seq<Fingerprint>, f: Fingerprint)
    ensures f in Usable(fs) <==> ValidFingerprint(f) && exists i :: 0 <= i < |fs| && TrimmedFingerprint(fs[i]) == f
  {
    if fs != [] {
      UsableOfPermutation(fs[1..], f);
      if i :| 0 <= i < |fs[1..]| && TrimmedFingerprint(fs[1..][i]) == f {
        assert TrimmedFingerprint(fs[i + 1]) == f;
      }
      if i :| 0 <= i < |fs| && TrimmedFingerprint(fs[i]) == f {
        assert i == 0 || TrimmedFingerprint(fs[1..][i - 1]) == f;
      }
    }
  }

  /** Idempotent, and blind to the order of the input. */
  lemma NormalizedFingerprintsStable(fs: seq<Fingerprint>, others: seq<Fingerprint>)
    requires multiset(fs) == multiset(others)
    ensures NormalizedFingerprints(fs) == NormalizedFingerprints(others)
    ensures NormalizedFingerprints(NormalizedFingerprints(fs)) == NormalizedFingerprints(fs)
  {
    NormalizedFingerprintsSpec(fs);
    UsableOfClean(NormalizedFingerprints(fs));
    FingerprintOrder();
    SortedIdempotent(FingerprintLess(), Usable(fs));
    MultisetMembers(fs, others);
    forall f ensures f in Usable(fs) <==> f in Usable(others) {
      UsableOfPermutation(fs, f);
      UsableOfPermutation(others, f);
      if i :| 0 <= i < |fs| && TrimmedFingerprint(fs[i]) == f {
        assert fs[i] in others;
      }
      if i :| 0 <= i < |others| && TrimmedFingerprint(others[i]) == f {
        assert others[i] in fs;
      }
    }
    SortedByMembers(FingerprintLess(), Usable(fs), Usable(others));
  }

  /** One row of the group_concat text. */
  function RowOf(f: Fingerprint): string { f.kind + "=" + f.value }

  function RowTexts(rows: seq<Fingerprint>): (texts: seq<string>)
    ensures |texts| == |rows| && forall i :: 0 <= i < |rows| ==> texts[i] == RowOf(rows[i])
  {
    if rows == [] then [] else [RowOf(rows[0])] + RowTexts(rows[1..])
  }

  /** strings.Cut at the first '='. */
  function Cut(field: string): Option<Fingerprint> {
    if field == "" then None
    else if field[0] == '=' then Some(Fingerprint("", field[1..]))
    else
      match Cut(field[1..])
      case None => None
      case Some(f) => Some(Fingerprint([field[0]] + f.kind, f.value))
  }

  function FingerprintsOfFields(fields: seq<string>): seq<Fingerprint> {
    if fields == [] then []
    else (match Cut(fields[0]) case Some(f) => [f] case None => []) + FingerprintsOfFields(fields[1..])
  }

  function ParseFingerprints(text: string): seq<Fingerprint> {
    NormalizedFingerprints(FingerprintsOfFields(Split(text, ',')))
  }

  lemma {:induction false} CutOfRow(kind: string, value: string)
    requires '=' !in kind
    ensures Cut(kind + "=" + value) == Some(Fingerprint(kind, value))
  {
    var field := kind + "=" + value;
    if kind == "" {
      assert field == "=" + value && field[1..] == value;
    } else {
      assert field[1..] == kind[1..] + "=" + value && kind == [kind[0]] + kind[1..];
      CutOfRow(kind[1..], value);
    }
  }

  lemma RowParses(f: Fingerprint)
    requires ValidFingerprint(f)
    ensures Cut(RowOf(f)) == Some(f)
  {
    CutOfRow(f.kind, f.value);
  }

  lemma {:induction false} PrintedRowsParse(rows: seq<Fingerprint>)
    requires forall i :: 0 <= i < |rows| ==> ValidFingerprint(rows[i])
    ensures FingerprintsOfFields(RowTexts(rows)) == rows
  {
    hide Cut, ValidFingerprint, RowOf;
    if rows != [] {
      RowParses(rows[0]);
      PrintedRowsParse(rows[1..]);
      assert rows == [rows[0]] + rows[1..];
    }
  }

  lemma RowHasNoComma(f: Fingerprint)
    requires ValidFingerprint(f)
    ensures ',' !in RowOf(f)
  {
    assert ',' !in SSH && ',' !in TLS && ForbiddenCharacter(',');
  }

  /** Whatever order the rows of a device come in, reading their joined text gives back the normal form that was stored. */
  lemma FingerprintRowsRoundTrip(fs: seq<Fingerprint>, rows: seq<Fingerprint>)
    requires multiset(rows) == multiset(NormalizedFingerprints(fs))
    ensures ParseFingerprints(Join(RowTexts(rows), ',')) == NormalizedFingerprints(fs)
  {
    hide NormalizedFingerprints, Trimmed;
    MultisetMembers(rows, NormalizedFingerprints(fs));
    NormalizedFingerprintsSpec(fs);
    NormalizedFingerprintsOfRows(fs, rows);
    if rows == [] {
      assert Cut("") == None;
      assert FingerprintsOfFields([""]) == [];
    } else {
      forall i | 0 <= i < |rows| ensures ValidFingerprint(rows[i]) && ',' !in RowTexts(rows)[i] {
        assert rows[i] in rows;
        RowHasNoComma(rows[i]);
      }
      SplitJoin(RowTexts(rows), ',');
      PrintedRowsParse(rows);
    }
  }
}
