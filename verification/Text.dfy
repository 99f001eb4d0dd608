/** Strings as the service sees them: byte order, decimal numerals, splitting and trimming. */
module Text {

  datatype Option<+T> = None | Some(value: T)

  // ---------- order ----------

  /** Order of Go's `<` on strings and of SQLite's `<` on TEXT. For UTF-8 the order of bytes is the order of code points. */
  predicate Less(a: string, b: string) {
    b != "" && (a == "" || a[0] < b[0] || (a[0] == b[0] && Less(a[1..], b[1..])))
  }

  lemma {:induction false} LessTrichotomy(a: string, b: string)
    ensures a == b ==> !Less(a, b)
    ensures a != b ==> Less(a, b) != Less(b, a)
  {
    if a != "" && b != "" && a[0] == b[0] {
      LessTrichotomy(a[1..], b[1..]);
      assert a == [a[0]] + a[1..] && b == [b[0]] + b[1..];
    }
  }

  lemma {:induction false} LessTransitive(a: string, b: string, c: string)
    requires Less(a, b) && Less(b, c)
    ensures Less(a, c)
  {
    if a != "" && a[0] == b[0] == c[0] {
      LessTransitive(a[1..], b[1..], c[1..]);
    }
  }

  /** The first difference decides. */
  lemma {:induction false} LessAtFirstDifference(a: string, b: string, k: nat)
    requires k < |a| && k < |b| && a[..k] == b[..k] && a[k] != b[k]
    ensures Less(a, b) <==> a[k] < b[k]
  {
    if k > 0 {
      assert a[0] == a[..k][0] == b[..k][0] == b[0];
      assert a[1..][..k - 1] == a[..k][1..] == b[..k][1..] == b[1..][..k - 1];
      LessAtFirstDifference(a[1..], b[1..], k - 1);
    }
  }

  /** Texts whose fixed-width heads differ compare as their heads do. */
  lemma {:induction false} LessByHead(a: string, b: string, x: string, y: string)
    requires |a| == |b| && a != b
    ensures Less(a + x, b + y) <==> Less(a, b)
  {
    assert (a + x)[0] == a[0] && (b + y)[0] == b[0];
    if a[0] == b[0] {
      assert (a + x)[1..] == a[1..] + x && (b + y)[1..] == b[1..] + y;
      assert a == [a[0]] + a[1..] && b == [b[0]] + b[1..];
      LessByHead(a[1..], b[1..], x, y);
    }
  }

  /** A common head does not count. */
  lemma {:induction false} LessAfterHead(h: string, x: string, y: string)
    ensures Less(h + x, h + y) <==> Less(x, y)
  {
    if h == "" {
      assert h + x == x && h + y == y;
    } else {
      assert (h + x)[1..] == h[1..] + x && (h + y)[1..] == h[1..] + y;
      LessAfterHead(h[1..], x, y);
    }
  }

  /** len() of a Go string: its UTF-8 bytes. */
  function ByteLength(s: string): nat {
    if s == "" then 0
    else (if s[0] < '\U{80}' then 1 else if s[0] < '\U{800}' then 2 else if s[0] < '\U{10000}' then 3 else 4) + ByteLength(s[1..])
  }

  // ---------- decimal numerals ----------

  predicate IsDigit(c: char) { '0' <= c <= '9' }

  predicate AllDigits(s: string) { forall i :: 0 <= i < |s| ==> IsDigit(s[i]) }

  function Digit(d: nat): (c: char)
    requires d < 10
    ensures IsDigit(c) && DigitValue(c) == d
  {
    ('0' as int + d) as char
  }

  function DigitValue(c: char): nat
    requires IsDigit(c)
  {
    c as int - '0' as int
  }

  /** strconv.Itoa on a natural number. */
  function Decimal(n: nat): (s: string)
    ensures s != ""
  {
    if n < 10 then [Digit(n)] else Decimal(n / 10) + [Digit(n % 10)]
  }

  function ValueOf(s: string): nat
    requires AllDigits(s)
  {
    if s == "" then 0 else 10 * ValueOf(s[..|s| - 1]) + DigitValue(s[|s| - 1])
  }

  lemma {:induction false} DecimalRoundTrip(n: nat)
    ensures AllDigits(Decimal(n)) && ValueOf(Decimal(n)) == n
    ensures Decimal(n)[0] == '0' ==> n == 0
    ensures n >= 10 <==> |Decimal(n)| > 1
  {
    var s := Decimal(n);
    if n >= 10 {
      DecimalRoundTrip(n / 10);
      assert s[..|s| - 1] == Decimal(n / 10);
    } else {
      assert s[..0] == "";
    }
  }

  /** A numeral without leading zero is the printed form of its value. */
  lemma {:induction false} PrintedValue(s: string)
    requires s != "" && AllDigits(s) && (|s| > 1 ==> s[0] != '0')
    ensures Decimal(ValueOf(s)) == s && (s[0] != '0' ==> ValueOf(s) >= 1)
  {
    var front, last := s[..|s| - 1], s[|s| - 1];
    assert s == front + [last] && Digit(DigitValue(last)) == last;
    if front != "" {
      PrintedValue(front);
    }
  }

  // ---------- splitting and joining on one character ----------

  /** strings.Split with a one-character separator. */
  function Split(s: string, c: char): (parts: seq<string>)
    ensures parts != []
  {
    if s == "" then [""]
    else if s[0] == c then [""] + Split(s[1..], c)
    else var rest := Split(s[1..], c); [[s[0]] + rest[0]] + rest[1..]
  }

  /** strings.Join, and SQLite's group_concat, with a one-character separator. */
  function Join(parts: seq<string>, c: char): string {
    if |parts| == 0 then "" else if |parts| == 1 then parts[0] else parts[0] + [c] + Join(parts[1..], c)
  }

  lemma {:induction false} SplitFirst(p: string, rest: string, c: char)
    requires c !in p
    ensures Split(p + [c] + rest, c) == [p] + Split(rest, c)
  {
    var s := p + [c] + rest;
    if p == "" {
      assert s == [c] + rest && s[1..] == rest;
    } else {
      assert s[1..] == p[1..] + [c] + rest;
      SplitFirst(p[1..], rest, c);
      assert p == [p[0]] + p[1..];
    }
  }

  lemma {:induction false} SplitJoin(parts: seq<string>, c: char)
    requires parts != [] && forall i :: 0 <= i < |parts| ==> c !in parts[i]
    ensures Split(Join(parts, c), c) == parts
  {
    if |parts| == 1 {
      SplitNothing(parts[0], c);
    } else {
      SplitFirst(parts[0], Join(parts[1..], c), c);
      SplitJoin(parts[1..], c);
    }
  }

  /** A text without the separator is its own only part. */
  lemma {:induction false} SplitNothing(s: string, c: char)
    requires c !in s
    ensures Split(s, c) == [s]
  {
    if s != "" {
      SplitNothing(s[1..], c);
      assert s == [s[0]] + s[1..];
    }
  }

  /** Joining what was split restores the text. */
  lemma {:induction false} JoinSplit(s: string, c: char)
    ensures Join(Split(s, c), c) == s
  {
    if s != "" {
      JoinSplit(s[1..], c);
      var rest := Split(s[1..], c);
      assert s == [s[0]] + s[1..];
      if s[0] == c {
        assert ([""] + rest)[1..] == rest;
      } else {
        JoinHead(s[0], rest, c);
      }
    }
  }

  lemma JoinHead(x: char, parts: seq<string>, c: char)
    requires parts != []
    ensures Join([[x] + parts[0]] + parts[1..], c) == [x] + Join(parts, c)
  {
    var more := [[x] + parts[0]] + parts[1..];
    if |parts| > 1 {
      assert more[1..] == parts[1..];
      assert more[0] + [c] + Join(parts[1..], c) == [x] + (parts[0] + [c] + Join(parts[1..], c));
    }
  }

  /** No part contains the separator. */
  lemma {:induction false} PartsLackSeparator(s: string, c: char)
    ensures forall i :: 0 <= i < |Split(s, c)| ==> c !in Split(s, c)[i]
  {
    if s != "" {
      PartsLackSeparator(s[1..], c);
    }
  }

  /** Splitting loses no character but the separator and invents none. */
  lemma {:induction false} SplitKeepsCharacters(s: string, c: char, x: char)
    requires x != c
    ensures x in s <==> exists i :: 0 <= i < |Split(s, c)| && x in Split(s, c)[i]
  {
    if s != "" {
      SplitKeepsCharacters(s[1..], c, x);
      var rest := Split(s[1..], c);
      var parts := Split(s, c);
      if s[0] == c {
        assert forall i :: 0 <= i < |rest| ==> parts[i + 1] == rest[i];
      } else {
        assert parts[0] == [s[0]] + rest[0];
        assert forall i :: 1 <= i < |rest| ==> parts[i] == rest[i];
        assert x == s[0] ==> x in parts[0];
      }
    }
  }

  // ---------- trimming ----------

  /** unicode.IsSpace */
  predicate IsSpace(c: char) {
    '\t' <= c <= '\r' || c == ' ' || c == '\U{85}' || c == '\U{A0}' || c == '\U{1680}' || '\U{2000}' <= c <= '\U{200A}'
    || c == '\U{2028}' || c == '\U{2029}' || c == '\U{202F}' || c == '\U{205F}' || c == '\U{3000}'
  }

  function TrimLeft(s: string): string {
    if s != "" && IsSpace(s[0]) then TrimLeft(s[1..]) else s
  }

  function TrimRight(s: string): string {
    if s != "" && IsSpace(s[|s| - 1]) then TrimRight(s[..|s| - 1]) else s
  }

  /** strings.TrimSpace */
  function TrimSpace(s: string): string { TrimRight(TrimLeft(s)) }

  /** No white space at either end. */
  predicate Trimmed(s: string) {
    s != "" ==> !IsSpace(s[0]) && !IsSpace(s[|s| - 1])
  }

  /** A trimmed text is untouched by another trim, and every result of a trim is trimmed. */
  lemma TrimOfTrimmed(s: string)
    ensures Trimmed(TrimSpace(s))
    ensures Trimmed(s) ==> TrimSpace(s) == s
  {
    TrimLeftEnds(s);
    TrimRightEnds(TrimLeft(s));
  }

  lemma {:induction false} TrimLeftEnds(s: string)
    ensures TrimLeft(s) != "" ==> !IsSpace(TrimLeft(s)[0])
  {
    if s != "" && IsSpace(s[0]) {
      TrimLeftEnds(s[1..]);
    }
  }

  lemma {:induction false} TrimRightEnds(s: string)
    ensures var t := TrimRight(s); t != "" ==> s != "" && t[0] == s[0] && !IsSpace(t[|t| - 1])
  {
    if s != "" && IsSpace(s[|s| - 1]) {
      TrimRightEnds(s[..|s| - 1]);
    }
  }

  lemma {:induction false} TrimKeepsCharacters(s: string, x: char)
    requires !IsSpace(x)
    ensures x in s <==> x in TrimSpace(s)
  {
    TrimLeftKeeps(s, x);
    TrimRightKeeps(TrimLeft(s), x);
  }

  lemma {:induction false} TrimLeftKeeps(s: string, x: char)
    requires !IsSpace(x)
    ensures x in s <==> x in TrimLeft(s)
  {
    if s != "" && IsSpace(s[0]) {
      TrimLeftKeeps(s[1..], x);
    }
  }

  lemma {:induction false} TrimRightKeeps(s: string, x: char)
    requires !IsSpace(x)
    ensures x in s <==> x in TrimRight(s)
  {
    if s != "" && IsSpace(s[|s| - 1]) {
      TrimRightKeeps(s[..|s| - 1], x);
    }
  }
}
