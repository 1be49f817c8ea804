// The address of the host to dial: printed into a fixed field, saved to flash,
// loaded at the next boot, parsed, and put together again.
module EndpointConfig {
  import opened Ump
  import opened Wrappers

  const NUL := '\0'
  const FLASH_MAGIC: Word := 0x324D_4E42

  // ---- printf("%u") and sscanf("%u") ----

  function DigitChar(d: nat): char
    requires d < 10
  {
    "0123456789"[d]
  }

  predicate IsDigit(c: char) { '0' <= c <= '9' }

  function Decimal(n: nat): (s: string)
    ensures s != [] && forall i :: 0 <= i < |s| ==> IsDigit(s[i])
  {
    if n < 10 then [DigitChar(n)] else Decimal(n / 10) + [DigitChar(n % 10)]
  }

  function DigitValue(c: char): nat
    requires IsDigit(c)
  {
    c as int - '0' as int
  }

  function Value(ds: string): nat
    requires forall i :: 0 <= i < |ds| ==> IsDigit(ds[i])
  {
    if ds == [] then 0 else Value(ds[..|ds|-1]) * 10 + DigitValue(ds[|ds|-1])
  }

  function DigitRun(s: string): (n: nat)
    ensures n <= |s| && forall i :: 0 <= i < n ==> IsDigit(s[i])
  {
    if s != [] && IsDigit(s[0]) then 1 + DigitRun(s[1..]) else 0
  }

  predicate IsSpace(c: char) { c == ' ' || '\t' <= c <= '\r' }

  function SkipSpace(s: string): string {
    if s != [] && IsSpace(s[0]) then SkipSpace(s[1..]) else s
  }

  datatype Scan = NoMatch | Num(value: Word, rest: string)

  /** One %u: white space, a sign, digits; out of range gives the largest value, a
      minus sign the negation modulo 2^32. */
  function ScanUnsigned(s: string): Scan { ScanSigned(SkipSpace(s)) }

  function ScanSigned(t: string): Scan {
    var signed := t != [] && (t[0] == '-' || t[0] == '+');
    var d := if signed then t[1..] else t;
    var n := DigitRun(d);
    if n == 0 then NoMatch
    else
      var v := Value(d[..n]);
      var negative := signed && t[0] == '-';
      Num(if v >= WORD_RANGE then WORD_RANGE - 1 else if negative then (WORD_RANGE - v) % WORD_RANGE else v, d[n..])
  }

  /** %u and then a dot. */
  function ScanDotted(s: string): Scan {
    var r := ScanUnsigned(s);
    if r.Num? && r.rest != [] && r.rest[0] == '.' then Num(r.value, r.rest[1..]) else NoMatch
  }

  type Octet = n: nat | n < 256

  /** Four conversions, nothing behind them, and every number an octet. */
  function ParseOctets(s: string): Option<seq<Octet>> {
    var a := ScanDotted(s);
    if a.NoMatch? then None else
    var b := ScanDotted(a.rest);
    if b.NoMatch? then None else
    var c := ScanDotted(b.rest);
    if c.NoMatch? then None else
    var d := ScanUnsigned(c.rest);
    if d.NoMatch? || d.rest != [] then None
    else if a.value > 255 || b.value > 255 || c.value > 255 || d.value > 255 then None
    else Some([a.value, b.value, c.value, d.value])
  }

  lemma {:induction false} ValueOfDecimal(n: nat)
    ensures Value(Decimal(n)) == n
  {
    if n < 10 {
      assert Decimal(n)[..0] == [];
    } else {
      ValueOfDecimal(n / 10);
      assert Decimal(n)[..|Decimal(n)|-1] == Decimal(n / 10);
    }
  }

  lemma {:induction false} DigitRunOf(ds: string, rest: string)
    requires forall i :: 0 <= i < |ds| ==> IsDigit(ds[i])
    requires rest == [] || !IsDigit(rest[0])
    ensures DigitRun(ds + rest) == |ds|
  {
    if ds == [] {
      assert ds + rest == rest;
    } else {
      DigitRunOf(ds[1..], rest);
      assert (ds + rest)[1..] == ds[1..] + rest;
    }
  }

  /** The characters that count as white space in the C locale. */
  lemma SpaceChars(c: char)
    ensures IsSpace(c) <==> c in {' ', '\t', '\n', '\U{0B}', '\U{0C}', '\r'}
  {}

  /** The digits are those of ASCII, most significant first. */
  lemma DigitChars(d: nat)
    requires d < 10
    ensures DigitChar(d) as int == '0' as int + d && DigitValue(DigitChar(d)) == d
  {}

  // ---- which strings are addresses ----

  predicate AllSpace(s: string) { forall i :: 0 <= i < |s| ==> IsSpace(s[i]) }

  predicate IsSign(sign: string) { sign == "" || sign == "+" || sign == "-" }

  predicate AllDigits(s: string) { forall i :: 0 <= i < |s| ==> IsDigit(s[i]) }

  /** What a sign and digits stand for in 32 bits. */
  function Meaning(sign: string, digits: string): nat
    requires AllDigits(digits)
  {
    var v := Value(digits);
    if v >= WORD_RANGE then WORD_RANGE - 1
    else if sign == "-" && v > 0 then WORD_RANGE - v
    else v
  }

  predicate Spells(f: string, blanks: string, sign: string, digits: string, v: nat) {
    && f == blanks + (sign + digits) && AllSpace(blanks) && IsSign(sign)
    && digits != "" && AllDigits(digits) && v == Meaning(sign, digits)
  }

  /** Optional white space, an optional sign, and at least one digit. */
  ghost predicate IsNumber(f: string, v: nat) {
    exists blanks, sign, digits :: Spells(f, blanks, sign, digits, v)
  }

  predicate EndsNumber(rest: string) { rest == "" || !IsDigit(rest[0]) }

  lemma {:induction false} SkipSplit(s: string) returns (blanks: string)
    ensures s == blanks + SkipSpace(s) && AllSpace(blanks)
    ensures SkipSpace(s) == "" || !IsSpace(SkipSpace(s)[0])
  {
    if s != [] && IsSpace(s[0]) {
      var more := SkipSplit(s[1..]);
      blanks := [s[0]] + more;
    } else {
      blanks := "";
    }
  }

  lemma {:induction false} SkipBlanks(blanks: string, t: string)
    requires AllSpace(blanks) && t != "" && !IsSpace(t[0])
    ensures SkipSpace(blanks + t) == t
  {
    if blanks == "" {
      assert blanks + t == t;
    } else {
      SkipBlanks(blanks[1..], t);
      assert (blanks + t)[1..] == blanks[1..] + t;
    }
  }

  lemma {:induction false} DigitRunEnds(s: string)
    ensures EndsNumber(s[DigitRun(s)..])
  {
    if s != [] && IsDigit(s[0]) { DigitRunEnds(s[1..]); }
  }

  lemma SignedReads(t: string) returns (sign: string, digits: string)
    requires ScanSigned(t).Num?
    ensures IsSign(sign) && digits != "" && AllDigits(digits) && EndsNumber(ScanSigned(t).rest)
    ensures t == sign + (digits + ScanSigned(t).rest) && ScanSigned(t).value == Meaning(sign, digits)
  {
    hide DigitRun, Value, IsDigit, AllDigits, EndsNumber;
    sign := if t[0] == '-' || t[0] == '+' then [t[0]] else "";
    var d := t[|sign|..];
    digits := d[..DigitRun(d)];
    RunSplit(d);
    assert sign == "" ==> t[0..] == t;
  }

  lemma RunSplit(d: string)
    ensures AllDigits(d[..DigitRun(d)]) && EndsNumber(d[DigitRun(d)..])
    ensures d == d[..DigitRun(d)] + d[DigitRun(d)..]
  {
    DigitRunEnds(d);
  }

  lemma SignedIsRead(sign: string, digits: string, rest: string)
    requires IsSign(sign) && digits != "" && AllDigits(digits) && EndsNumber(rest)
    ensures Meaning(sign, digits) < WORD_RANGE
    ensures ScanSigned(sign + (digits + rest)) == Num(Meaning(sign, digits), rest)
  {
    hide DigitRun, Value, IsDigit, AllDigits, EndsNumber;
    SignSplit(sign, digits, rest);
    RunOfDigits(digits, rest);
  }

  lemma RunOfDigits(digits: string, rest: string)
    requires AllDigits(digits) && EndsNumber(rest)
    ensures DigitRun(digits + rest) == |digits|
    ensures (digits + rest)[..|digits|] == digits && (digits + rest)[|digits|..] == rest
  {
    DigitRunOf(digits, rest);
  }

  lemma SignSplit(sign: string, digits: string, rest: string)
    requires IsSign(sign) && digits != "" && AllDigits(digits)
    ensures
      var t, d := sign + (digits + rest), digits + rest;
      if sign == "" then t == d && t[0] != '-' && t[0] != '+' else t[0] == sign[0] && t[1..] == d
  {
    assert (digits + rest)[0] == digits[0] && IsDigit(digits[0]);
  }

  /** What a scan reads is a number, and it reads as far as the number goes. */
  lemma {:induction false} ScanReads(s: string) returns (f: string)
    requires ScanUnsigned(s).Num?
    ensures s == f + ScanUnsigned(s).rest && IsNumber(f, ScanUnsigned(s).value)
    ensures EndsNumber(ScanUnsigned(s).rest)
  {
    hide ScanSigned, SkipSpace, AllDigits, AllSpace, Meaning, EndsNumber;
    var blanks := SkipSplit(s);
    var sign, digits := SignedReads(SkipSpace(s));
    f := blanks + (sign + digits);
    assert Spells(f, blanks, sign, digits, ScanUnsigned(s).value);
    Regroup(blanks, sign, digits, ScanUnsigned(s).rest);
  }

  lemma Regroup(a: string, b: string, c: string, d: string)
    ensures a + (b + (c + d)) == (a + (b + c)) + d
  {}

  /** And every number is read, whatever follows that is no digit. */
  lemma {:induction false} NumberIsRead(f: string, v: nat, rest: string)
    requires IsNumber(f, v) && EndsNumber(rest)
    ensures v < WORD_RANGE && ScanUnsigned(f + rest) == Num(v, rest)
  {
    hide ScanSigned, SkipSpace, AllSpace, Meaning, EndsNumber;
    var blanks, sign, digits :| Spells(f, blanks, sign, digits, v);
    var t := sign + (digits + rest);
    Regroup(blanks, sign, digits, rest);
    assert t[0] == if sign == "" then digits[0] else sign[0];
    assert IsDigit(digits[0]);
    SkipBlanks(blanks, t);
    SignedIsRead(sign, digits, rest);
  }

  /** What %u prints, %u reads back, whatever follows that is no digit. */
  lemma {:induction false} PrintedIsScanned(n: Word, rest: string)
    requires EndsNumber(rest)
    ensures ScanUnsigned(Decimal(n) + rest) == Num(n, rest)
  {
    hide ScanUnsigned, Decimal, DigitRun, Value, IsDigit;
    ValueOfDecimal(n);
    assert "" + ("" + Decimal(n)) == Decimal(n);
    assert Spells(Decimal(n), "", "", Decimal(n), n);
    NumberIsRead(Decimal(n), n, rest);
  }

  ghost predicate Joins(s: string, a: string, b: string, c: string, d: string, o: seq<Octet>)
    requires |o| == 4
  {
    && s == a + ("." + (b + ("." + (c + ("." + d)))))
    && IsNumber(a, o[0]) && IsNumber(b, o[1]) && IsNumber(c, o[2]) && IsNumber(d, o[3])
  }

  /** Four numbers below 256 with single dots between them, and nothing behind. */
  ghost predicate IsAddress(s: string, o: seq<Octet>) {
    |o| == 4 && exists a, b, c, d :: Joins(s, a, b, c, d, o)
  }

  lemma DottedReads(s: string) returns (f: string)
    requires ScanDotted(s).Num?
    ensures s == f + ("." + ScanDotted(s).rest) && IsNumber(f, ScanDotted(s).value)
  {
    hide IsNumber;
    f := ScanReads(s);
    var r := ScanUnsigned(s).rest;
    assert r == "." + r[1..];
  }

  lemma DottedIsRead(f: string, v: nat, rest: string)
    requires IsNumber(f, v)
    ensures v < WORD_RANGE && ScanDotted(f + ("." + rest)) == Num(v, rest)
  {
    NumberIsRead(f, v, "." + rest);
    assert ("." + rest)[1..] == rest;
  }

  lemma {:induction false} ParsedIsAddress(s: string)
    requires ParseOctets(s).Some?
    ensures IsAddress(s, ParseOctets(s).value)
  {
    hide ScanDotted, ScanUnsigned, IsNumber;
    var a := DottedReads(s);
    var s1 := ScanDotted(s).rest;
    var b := DottedReads(s1);
    var s2 := ScanDotted(s1).rest;
    var c := DottedReads(s2);
    var s3 := ScanDotted(s2).rest;
    var d := ScanReads(s3);
    assert d + "" == d;
    assert Joins(s, a, b, c, d, ParseOctets(s).value);
  }

  lemma {:induction false} AddressIsParsed(s: string, o: seq<Octet>)
    requires IsAddress(s, o)
    ensures ParseOctets(s) == Some(o)
  {
    hide ScanDotted, ScanUnsigned, IsNumber;
    var a, b, c, d :| Joins(s, a, b, c, d, o);
    DottedIsRead(a, o[0], b + ("." + (c + ("." + d))));
    DottedIsRead(b, o[1], c + ("." + d));
    DottedIsRead(c, o[2], d);
    NumberIsRead(d, o[3], "");
    assert d + "" == d;
    assert o == [o[0], o[1], o[2], o[3]];
  }

  /** Exactly the addresses are accepted, with exactly their octets. */
  lemma {:induction false} ParsesIffAddress(s: string, o: seq<Octet>)
    ensures ParseOctets(s) == Some(o) <==> IsAddress(s, o)
  {
    hide ParseOctets, IsAddress;
    if ParseOctets(s) == Some(o) { ParsedIsAddress(s); }
    if IsAddress(s, o) { AddressIsParsed(s, o); }
  }

  method ParseDottedIp(s: string, out: array<Octet>) returns (ok: bool)
    requires out.Length == 4
    modifies out
    ensures ok <==> ParseOctets(s).Some?
    ensures out[..] == if ok then ParseOctets(s).value else old(out[..])
    ensures ok ==> IsAddress(s, out[..])
    ensures !ok ==> forall o: seq<Octet> :: !IsAddress(s, o)
  {
    hide ScanUnsigned, ScanDotted, IsAddress;
    if ParseOctets(s).Some? { ParsedIsAddress(s); }
    forall o: seq<Octet> | IsAddress(s, o) ensures ParseOctets(s) == Some(o) { AddressIsParsed(s, o); }
    var a := ScanDotted(s);
    if a.NoMatch? { return false; }
    var b := ScanDotted(a.rest);
    if b.NoMatch? { return false; }
    var c := ScanDotted(b.rest);
    if c.NoMatch? { return false; }
    var d := ScanUnsigned(c.rest);
    if d.NoMatch? || d.rest != [] { return false; }
    if a.value > 255 || b.value > 255 || c.value > 255 || d.value > 255 { return false; }
    out[0], out[1], out[2], out[3] := a.value, b.value, c.value, d.value;
    return true;
  }

  // ---- addresses ----

  function Octets(ip: Word): seq<Octet> {
    [ip / 0x100_0000 % 256, ip / 0x1_0000 % 256, ip / 0x100 % 256, ip % 256]
  }

  /** The shifts that put an address together for dialling. */
  function Assemble(o: seq<Octet>): Word
    requires |o| == 4
  {
    var a: nat, b: nat, c: nat := o[0], o[1], o[2];
    a * 0x100_0000 + b * 0x1_0000 + c * 0x100 + o[3]
  }

  lemma LowByte(t: nat, d: nat)
    requires d < 256
    ensures (t * 256 + d) / 256 == t && (t * 256 + d) % 256 == d
  {}

  lemma ByteByByte(n: nat)
    ensures n / 0x1_0000 == n / 256 / 256 && n / 0x100_0000 == n / 256 / 256 / 256
  {}

  lemma Recompose(n: nat)
    ensures n == n / 256 * 256 + n % 256
  {}

  lemma AssembleOctets(ip: Word)
    ensures Assemble(Octets(ip)) == ip
  {
    ByteByByte(ip);
    Recompose(ip);
    Recompose(ip / 256);
    Recompose(ip / 256 / 256);
    Recompose(ip / 256 / 256 / 256);
    assert ip / 256 / 256 / 256 / 256 == 0;
  }

  function Dotted(ip: Word): string {
    var o := Octets(ip);
    Decimal(o[0]) + ("." + (Decimal(o[1]) + ("." + (Decimal(o[2]) + ("." + Decimal(o[3]))))))
  }

  lemma OctetIsShort(n: Octet)
    ensures |Decimal(n)| <= 3
  {
    var m: nat := n;
    if m >= 100 {
      assert Decimal(m / 10) == Decimal(m / 10 / 10) + [DigitChar(m / 10 % 10)];
      assert m / 10 / 10 < 10;
    }
  }

  lemma DottedFits(ip: Word)
    ensures |Dotted(ip)| <= 15
    ensures forall i :: 0 <= i < |Dotted(ip)| ==> Dotted(ip)[i] != NUL
  {
    var o := Octets(ip);
    OctetIsShort(o[0]);
    OctetIsShort(o[1]);
    OctetIsShort(o[2]);
    OctetIsShort(o[3]);
  }

  lemma SmallDecimal(n: nat)
    requires n < 1000
    ensures Decimal(n) ==
      if n < 10 then [DigitChar(n)]
      else if n < 100 then [DigitChar(n / 10), DigitChar(n % 10)]
      else [DigitChar(n / 100), DigitChar(n / 10 % 10), DigitChar(n % 10)]
  {
    hide DigitChar;
    if n >= 100 { assert Decimal(n / 10) == Decimal(n / 10 / 10) + [DigitChar(n / 10 % 10)]; }
  }

  lemma KnownDecimals()
    ensures Decimal(192) == "192" && Decimal(168) == "168" && Decimal(1) == "1" && Decimal(200) == "200"
  {
    hide Decimal;
    SmallDecimal(192);
    SmallDecimal(168);
    SmallDecimal(1);
    SmallDecimal(200);
  }

  /** The first octet is the most significant. */
  lemma OctetsOf(a: nat, b: nat, c: nat, d: nat)
    requires a < 256 && b < 256 && c < 256 && d < 256
    ensures ((a * 256 + b) * 256 + c) * 256 + d < WORD_RANGE
    ensures Octets(((a * 256 + b) * 256 + c) * 256 + d) == [a, b, c, d]
  {
    var h := a * 256 + b;
    var t := h * 256 + c;
    var ip := t * 256 + d;
    ByteByByte(ip);
    LowByte(t, d);
    LowByte(h, c);
    LowByte(a, b);
  }

  /** The first octet is the most significant, and numbers are decimal. */
  lemma KnownAddress()
    ensures Dotted(0xC0A8_01C8) == "192.168.1.200"
    ensures Assemble([192, 168, 1, 200]) == 0xC0A8_01C8
  {
    hide Decimal, Octets;
    OctetsOf(192, 168, 1, 200);
    KnownDecimals();
    assert "1" + ("." + "200") == "1.200";
    assert "168" + ("." + "1.200") == "168.1.200";
    assert "192" + ("." + "168.1.200") == "192.168.1.200";
  }

  lemma ScanOneDotted(n: Octet, rest: string)
    ensures ScanDotted(Decimal(n) + ("." + rest)) == Num(n, rest)
  {
    PrintedIsScanned(n, "." + rest);
    assert ("." + rest)[1..] == rest;
  }

  /** Every address survives being printed and parsed. */
  lemma ParseDotted(ip: Word)
    ensures ParseOctets(Dotted(ip)) == Some(Octets(ip))
  {
    var o := Octets(ip);
    var s3 := Decimal(o[3]);
    var s2 := Decimal(o[2]) + ("." + s3);
    var s1 := Decimal(o[1]) + ("." + s2);
    ScanOneDotted(o[0], s1);
    ScanOneDotted(o[1], s2);
    ScanOneDotted(o[2], s3);
    PrintedIsScanned(o[3], "");
    assert s3 + "" == s3;
  }

  // ---- fixed fields ----

  /** The C string held in a field. */
  function CString(field: seq<char>): string {
    if field == [] || field[0] == NUL then [] else [field[0]] + CString(field[1..])
  }

  /** snprintf into a field: cut to fit, and terminated. */
  function Printed(field: seq<char>, text: string): (r: seq<char>)
    requires field != []
    ensures |r| == |field|
  {
    var t := if |text| < |field| then text else text[..|field|-1];
    t + [NUL] + field[|t| + 1..]
  }

  /** A field that is initialised with a text: the rest is NULs. */
  function Padded(text: string, n: nat): (r: seq<char>)
    requires |text| < n
    ensures |r| == n
  {
    text + seq(n - |text|, _ => NUL)
  }

  function Copied(dst: seq<char>, src: seq<char>): (r: seq<char>)
    requires dst != []
    ensures |r| == |dst|
  {
    var n := if |dst| < |src| then |dst| else |src|;
    (src[..n] + dst[n..])[|dst| - 1 := NUL]
  }

  method CopyStr(dst: array<char>, src: seq<char>)
    requires dst.Length > 0
    modifies dst
    ensures dst[..] == Copied(old(dst[..]), src)
  {
    var n := if dst.Length < |src| then dst.Length else |src|;
    forall i | 0 <= i < n { dst[i] := src[i]; }
    dst[dst.Length - 1] := NUL;
  }

  /** The common length is copied, but for the last place, which ends the string; what
      was behind it stays. */
  lemma CopiedPlaces(dst: seq<char>, src: seq<char>, i: nat)
    requires i < |dst|
    ensures Copied(dst, src)[i] == if i == |dst| - 1 then NUL else if i < |src| then src[i] else dst[i]
  {}

  lemma {:induction false} CStringTaken(s: seq<char>, t: seq<char>, n: nat)
    requires n < |t| && n <= |s| && s[..n] == t[..n] && t[n] == NUL
    ensures CString(t) == if |CString(s)| < n then CString(s) else s[..n]
    decreases n
  {
    if n > 0 && s[0] != NUL {
      assert s[1..][..n - 1] == t[1..][..n - 1];
      CStringTaken(s[1..], t[1..], n - 1);
    }
  }

  /** A string copied into a field that is no longer is the string, cut to fit. */
  lemma {:induction false} CopiedIsCut(dst: seq<char>, src: seq<char>)
    requires dst != [] && |dst| <= |src|
    ensures
      var text := CString(src);
      CString(Copied(dst, src)) == if |text| < |dst| then text else src[..|dst| - 1]
  {
    CStringTaken(src, Copied(dst, src), |dst| - 1);
    CStringIsPrefix(src);
  }

  lemma {:induction false} CStringIsPrefix(s: seq<char>)
    ensures CString(s) <= s
  {
    if s != [] && s[0] != NUL { CStringIsPrefix(s[1..]); }
  }

  /** A text printed into a field is the text, cut to fit. */
  lemma {:induction false} PrintedIsCut(field: seq<char>, text: string)
    requires field != [] && forall i :: 0 <= i < |text| ==> text[i] != NUL
    ensures CString(Printed(field, text)) == if |text| < |field| then text else text[..|field| - 1]
  {
    var t := if |text| < |field| then text else text[..|field| - 1];
    CStringOf(t, field[|t| + 1..]);
    assert Printed(field, text) == t + ([NUL] + field[|t| + 1..]);
  }

  lemma CopySameSize(dst: seq<char>, src: seq<char>)
    requires dst != [] && |dst| == |src|
    ensures Copied(dst, src) == src[|src| - 1 := NUL]
  {}

  lemma {:induction false} CStringOf(text: string, rest: seq<char>)
    requires forall i :: 0 <= i < |text| ==> text[i] != NUL
    ensures CString(text + ([NUL] + rest)) == text
  {
    if text != [] {
      CStringOf(text[1..], rest);
      assert (text + ([NUL] + rest))[1..] == text[1..] + ([NUL] + rest);
    }
  }

  // ---- the configuration and its place in flash ----

  datatype Role = Client | Host

  datatype FlashConfig = FlashConfig(
    magic: Word, role: Role, name: seq<char>, useDhcp: nat,
    staticIp: seq<char>, staticNetmask: seq<char>, staticGateway: seq<char>, staticDns: seq<char>,
    clientHostIp: seq<char>, clientHostPort: nat)
  {
    predicate Sized() {
      && |name| == 64 && |staticIp| == 16 && |staticNetmask| == 16 && |staticGateway| == 16
      && |staticDns| == 16 && |clientHostIp| == 16 && clientHostPort < 0x1_0000 && useDhcp < 256
    }
  }

  class Flash {
    var page: FlashConfig

    constructor (page: FlashConfig)
      ensures this.page == page
    {
      this.page := page;
    }
  }

  class BridgeConfig {
    var role: Role
    const name: array<char>
    var useDhcp: bool
    const staticIp: array<char>
    const staticNetmask: array<char>
    const staticGateway: array<char>
    const staticDns: array<char>
    const clientHostIp: array<char>
    var clientHostPort: nat

    ghost predicate Valid()
      reads this
    {
      && name.Length == 64 && staticIp.Length == 16 && staticNetmask.Length == 16
      && staticGateway.Length == 16 && staticDns.Length == 16 && clientHostIp.Length == 16
      && staticIp != staticNetmask && staticIp != staticGateway && staticIp != staticDns && staticIp != clientHostIp
      && staticNetmask != staticGateway && staticNetmask != staticDns && staticNetmask != clientHostIp
      && staticGateway != staticDns && staticGateway != clientHostIp && staticDns != clientHostIp
      && clientHostPort < 0x1_0000
    }

    /** What saving writes: every field, its last byte a NUL. */
    ghost function Saved(): FlashConfig
      reads this, name, staticIp, staticNetmask, staticGateway, staticDns, clientHostIp
      requires Valid()
    {
      FlashConfig(FLASH_MAGIC, role, Ended(name[..]), if useDhcp then 1 else 0,
                  Ended(staticIp[..]), Ended(staticNetmask[..]), Ended(staticGateway[..]), Ended(staticDns[..]),
                  Ended(clientHostIp[..]), clientHostPort)
    }

    /** The configuration as it is. */
    ghost function Image(): FlashConfig
      reads this, name, staticIp, staticNetmask, staticGateway, staticDns, clientHostIp
      requires Valid()
    {
      FlashConfig(FLASH_MAGIC, role, name[..], if useDhcp then 1 else 0,
                  staticIp[..], staticNetmask[..], staticGateway[..], staticDns[..],
                  clientHostIp[..], clientHostPort)
    }

    /** The defaults of the first boot. */
    constructor ()
      ensures Valid()
      ensures fresh(name) && fresh(staticIp) && fresh(staticNetmask)
      ensures fresh(staticGateway) && fresh(staticDns) && fresh(clientHostIp)
      ensures role == Client && useDhcp && clientHostPort == 5004
      ensures name[..] == Padded("NetworkMIDIUMPBridge", 64)
      ensures staticIp[..] == Padded("192.168.1.200", 16) && staticNetmask[..] == Padded("255.255.255.0", 16)
      ensures staticGateway[..] == staticDns[..] == Padded("192.168.1.1", 16)
      ensures clientHostIp[..] == Padded("", 16)
    {
      role, useDhcp, clientHostPort := Client, true, 5004;
      name := new char[64](i requires 0 <= i < 64 => Padded("NetworkMIDIUMPBridge", 64)[i]);
      staticIp := new char[16](i requires 0 <= i < 16 => Padded("192.168.1.200", 16)[i]);
      staticNetmask := new char[16](i requires 0 <= i < 16 => Padded("255.255.255.0", 16)[i]);
      staticGateway := new char[16](i requires 0 <= i < 16 => Padded("192.168.1.1", 16)[i]);
      staticDns := new char[16](i requires 0 <= i < 16 => Padded("192.168.1.1", 16)[i]);
      clientHostIp := new char[16](i requires 0 <= i < 16 => Padded("", 16)[i]);
      new;
      hide Padded;
    }

    method Save(flash: Flash)
      requires Valid()
      modifies flash
      ensures flash.page == Saved()
    {
      var zero16 := seq(16, _ => NUL);
      CopySameSize(seq(64, _ => NUL), name[..]);
      forall f: seq<char> | |f| == 16 ensures Copied(zero16, f) == Ended(f) { CopySameSize(zero16, f); }
      flash.page := FlashConfig(
        FLASH_MAGIC, role, Copied(seq(64, _ => NUL), name[..]), if useDhcp then 1 else 0,
        Copied(zero16, staticIp[..]), Copied(zero16, staticNetmask[..]), Copied(zero16, staticGateway[..]),
        Copied(zero16, staticDns[..]), Copied(zero16, clientHostIp[..]), clientHostPort);
    }

    /** Nothing changes when no configuration of this layout was ever saved. */
    method Load(flash: Flash)
      requires Valid() && flash.page.Sized()
      modifies this, name, staticIp, staticNetmask, staticGateway, staticDns, clientHostIp
      ensures Valid()
      ensures flash.page.magic != FLASH_MAGIC ==> Image() == old(Image())
      ensures flash.page.magic == FLASH_MAGIC ==> Image() == Loaded(flash.page)
    {
      var saved := flash.page;
      if saved.magic != FLASH_MAGIC { return; }
      role := saved.role;
      useDhcp := saved.useDhcp != 0;
      clientHostPort := saved.clientHostPort;
      forall d: seq<char>, f: seq<char> | |d| == |f| && d != [] ensures Copied(d, f) == Ended(f) { CopySameSize(d, f); }
      CopyStr(name, saved.name);
      CopyStr(staticIp, saved.staticIp);
      CopyStr(staticNetmask, saved.staticNetmask);
      CopyStr(staticGateway, saved.staticGateway);
      CopyStr(staticDns, saved.staticDns);
      CopyStr(clientHostIp, saved.clientHostIp);
    }

    /** Takes a discovered host. */
    method PickHost(ip: Word, port: nat)
      requires Valid() && port < 0x1_0000
      modifies this`clientHostPort, clientHostIp
      ensures Valid() && clientHostPort == port
      ensures clientHostIp[..] == Printed(old(clientHostIp[..]), Dotted(ip))
    {
      var text := Dotted(ip);
      DottedFits(ip);
      forall i | 0 <= i < |text| { clientHostIp[i] := text[i]; }
      clientHostIp[|text|] := NUL;
      clientHostPort := port;
    }
  }

  function Ended(f: seq<char>): (r: seq<char>)
    requires f != []
    ensures |r| == |f|
  {
    f[|f| - 1 := NUL]
  }

  function Loaded(p: FlashConfig): FlashConfig
    requires p.Sized()
  {
    p.(name := Ended(p.name), useDhcp := if p.useDhcp != 0 then 1 else 0,
       staticIp := Ended(p.staticIp), staticNetmask := Ended(p.staticNetmask),
       staticGateway := Ended(p.staticGateway), staticDns := Ended(p.staticDns),
       clientHostIp := Ended(p.clientHostIp))
  }

  predicate Terminated(f: seq<char>) { f != [] && f[|f| - 1] == NUL }

  /** What was saved is loaded as it was, exactly when every text field was
      terminated; the rest always is. */
  lemma {:induction false} SavedIsLoaded(cfg: BridgeConfig)
    requires cfg.Valid()
    ensures cfg.Saved().Sized() && Loaded(cfg.Saved()) == cfg.Saved()
    ensures Loaded(cfg.Saved()) == cfg.Image() <==>
      Terminated(cfg.name[..]) && Terminated(cfg.staticIp[..]) && Terminated(cfg.staticNetmask[..])
      && Terminated(cfg.staticGateway[..]) && Terminated(cfg.staticDns[..]) && Terminated(cfg.clientHostIp[..])
  {
    forall f: seq<char> | f != [] ensures Ended(f) == f <==> Terminated(f) {
      assert Ended(f)[|f| - 1] == NUL;
    }
  }

  /** The host that was picked is the host that is dialled, for every address,
      whatever the field held before. */
  lemma {:induction false} PickedIsDialled(field: seq<char>, ip: Word)
    requires |field| == 16
    ensures
      var loaded := Ended(Ended(Printed(field, Dotted(ip))));
      var parsed := ParseOctets(CString(loaded));
      parsed.Some? && |parsed.value| == 4 && Assemble(parsed.value) == ip
  {
    var text := Dotted(ip);
    DottedFits(ip);
    var f := Printed(field, text);
    var rest := Ended(f)[|text| + 1..];
    assert Ended(f) == text + ([NUL] + rest);
    assert Ended(Ended(f)) == Ended(f);
    CStringOf(text, rest);
    ParseDotted(ip);
    AssembleOctets(ip);
  }

  /** From picking a host in one run to dialling it in the next. */
  method DialPicked(cfg: BridgeConfig, flash: Flash, ip: Word, port: nat) returns (ipv4: Word, dialPort: nat)
    requires cfg.Valid() && port < 0x1_0000
    modifies cfg`clientHostPort, cfg.clientHostIp, flash
    ensures ipv4 == ip && dialPort == port
  {
    hide ParseOctets, CString, Dotted, Assemble, Padded, Printed;
    ghost var field := cfg.clientHostIp[..];
    cfg.PickHost(ip, port);
    cfg.Save(flash);
    SavedIsLoaded(cfg);
    var boot := new BridgeConfig();
    boot.Load(flash);
    PickedIsDialled(field, ip);
    var hostOctets := new Octet[4](_ => 0);
    var ok := ParseDottedIp(CString(boot.clientHostIp[..]), hostOctets);
    ipv4 := Assemble(hostOctets[..]);
    dialPort := boot.clientHostPort;
  }
}
