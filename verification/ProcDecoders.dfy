/** Decoders of /proc text (backend/internal/enrich/proc.go, backend/internal/realengine/engine.go)
    and of kernel address words (backend/internal/ebpfagent/agent.go).

    Text is a sequence of characters; strconv and strings are modelled as far as the decoders rely on
    them, errors included. */
module ProcDecoders {
  import opened MachineTypes

  // ---------------------------------------------------------------- numbers

  function Digit(c: char): Option<nat> {
    if '0' <= c <= '9' then Some(c as int - '0' as int)
    else if 'a' <= c <= 'z' then Some(c as int - 'a' as int + 10)
    else if 'A' <= c <= 'Z' then Some(c as int - 'A' as int + 10)
    else None
  }

  function Push(acc: nat, base: nat, d: nat): nat { acc * base + d }

  /** strconv.ParseUint from the middle of a scan: the value, and whether there was no error.  The first
      bad digit yields 0, the first overflow the largest value. */
  function Scan(s: string, base: nat, max: nat, acc: nat): (nat, bool) {
    if s == [] then (acc, true)
    else
      var d := Digit(s[0]);
      if d.None? || d.value >= base then (0, false)
      else if Push(acc, base, d.value) > max then (max, false)
      else Scan(s[1..], base, max, Push(acc, base, d.value))
  }

  function ParseUint(s: string, base: nat, max: nat): (nat, bool) {
    if s == [] then (0, false) else Scan(s, base, max, 0)
  }

  /** strconv.ParseInt; `half` is 1 << (bitSize - 1). */
  function ParseInt(s: string, base: nat, half: int): (int, bool)
    requires half > 0
  {
    var negative := s != [] && s[0] == '-';
    var digits := if s != [] && (s[0] == '-' || s[0] == '+') then s[1..] else s;
    var (n: int, ok) := ParseUint(digits, base, 2 * half - 1);
    if !ok && n != 2 * half - 1 then (0, false)
    else if !negative && n >= half then (half - 1, false)
    else if negative && n > half then (-half, false)
    else (if negative then -n else n, ok)
  }

  function Upper(d: nat): char
    requires d < 16
  {
    if d < 10 then '0' + d as char else 'A' + (d - 10) as char
  }

  /** Decimal, without leading zeros. */
  function Print(n: nat): string {
    if n < 10 then [Upper(n)] else Print(n / 10) + [Upper(n % 10)]
  }

  /** The low `width` hexadecimal digits of n, as the kernel's %0*X prints it. */
  function Hex(n: nat, width: nat): string {
    if width == 0 then [] else Hex(n / 16, width - 1) + [Upper(n % 16)]
  }

  function PrintInt(n: int): string { if n < 0 then "-" + Print(-n) else Print(n) }

  lemma DigitOfUpper(d: nat)
    requires d < 16
    ensures Digit(Upper(d)) == Some(d)
  {
  }

  lemma {:induction false} ScanAppend(s: string, c: char, base: nat, max: nat, acc: nat)
    requires Scan(s, base, max, acc).1
    ensures Scan(s + [c], base, max, acc) == Scan([c], base, max, Scan(s, base, max, acc).0)
  {
    if s == [] {
      assert s + [c] == [c];
    } else {
      assert (s + [c])[1..] == s[1..] + [c];
      hide Push, Digit;
      ScanAppend(s[1..], c, base, max, Push(acc, base, Digit(s[0]).value));
    }
  }

  lemma ScanLast(v: nat, d: nat, base: nat, max: nat)
    requires d < base <= 16 && v * base + d <= max
    ensures Scan([Upper(d)], base, max, v) == (v * base + d, true)
  {
    DigitOfUpper(d);
    assert [Upper(d)][1..] == [];
  }

  lemma {:induction false} ScanPrint(n: nat, max: nat)
    requires n <= max
    ensures Scan(Print(n), 10, max, 0) == (n, true)
  {
    if n < 10 {
      ScanLast(0, n, 10, max);
    } else {
      hide Scan, Upper;
      ScanPrint(n / 10, max);
      ScanAppend(Print(n / 10), Upper(n % 10), 10, max, 0);
      ScanLast(n / 10, n % 10, 10, max);
    }
  }

  lemma {:induction false} ScanHex(n: nat, width: nat, max: nat)
    requires n <= max && (width == 0 ==> n == 0) && n < Pow16(width)
    ensures Scan(Hex(n, width), 16, max, 0) == (n, true)
  {
    if width > 0 {
      hide Scan, Upper;
      ScanHex(n / 16, width - 1, max);
      ScanAppend(Hex(n / 16, width - 1), Upper(n % 16), 16, max, 0);
      ScanLast(n / 16, n % 16, 16, max);
    }
  }

  function Pow16(width: nat): nat { if width == 0 then 1 else 16 * Pow16(width - 1) }

  lemma {:induction false} HexLength(n: nat, width: nat)
    ensures |Hex(n, width)| == width
    ensures forall i :: 0 <= i < width ==> Hex(n, width)[i] != ':'
  {
    if width > 0 { HexLength(n / 16, width - 1); }
  }

  lemma {:induction false} PrintChars(n: nat)
    ensures Print(n) != []
    ensures forall i :: 0 <= i < |Print(n)| ==> '0' <= Print(n)[i] <= '9'
    decreases n
  {
    if n >= 10 { PrintChars(n / 10); }
  }

  /** Printing and parsing are inverse, for every number that fits. */
  lemma UintRoundTrip(n: nat, max: nat)
    requires n <= max
    ensures ParseUint(Print(n), 10, max) == (n, true)
  {
    PrintChars(n);
    ScanPrint(n, max);
  }

  lemma IntRoundTrip(n: int, half: int)
    requires half > 0 && -half <= n < half
    ensures ParseInt(PrintInt(n), 10, half) == (n, true)
    ensures n >= 0 ==> ParseInt("+" + Print(n), 10, half) == (n, true)
  {
    hide Print, Scan;
    var m: nat := if n < 0 then -n else n;
    PrintChars(m);
    UintRoundTrip(m, 2 * half - 1);
    assert n < 0 ==> PrintInt(n)[1..] == Print(m);
    assert ("+" + Print(m))[1..] == Print(m);
  }

  lemma {:induction false} ScanSticks(s: string, t: string, base: nat, max: nat, acc: nat)
    requires !Scan(s, base, max, acc).1
    ensures Scan(s + t, base, max, acc) == Scan(s, base, max, acc)
  {
    hide Push, Digit;
    assert (s + t)[1..] == s[1..] + t;
    var d := Digit(s[0]);
    if d.Some? && d.value < base && Push(acc, base, d.value) <= max {
      ScanSticks(s[1..], t, base, max, Push(acc, base, d.value));
    }
  }

  lemma {:induction false} ScanTooMuch(n: nat, max: nat)
    requires n > max
    ensures Scan(Print(n), 10, max, 0) == (max, false)
  {
    DigitOfUpper(n % 10);
    if n < 10 {
      assert Print(n) == [Upper(n)];
    } else if n / 10 > max {
      ScanTooMuch(n / 10, max);
      ScanSticks(Print(n / 10), [Upper(n % 10)], 10, max, 0);
    } else {
      ScanPrint(n / 10, max);
      ScanAppend(Print(n / 10), Upper(n % 10), 10, max, 0);
    }
  }

  /** A number that does not fit comes back as the nearest one that does, with an error. */
  lemma IntSaturates(n: int, half: int)
    requires half > 0 && !(-half <= n < half)
    ensures ParseInt(PrintInt(n), 10, half) == (if n < 0 then -half else half - 1, false)
  {
    hide Print, Scan;
    var m: nat := if n < 0 then -n else n;
    PrintChars(m);
    if m <= 2 * half - 1 {
      UintRoundTrip(m, 2 * half - 1);
    } else {
      ScanTooMuch(m, 2 * half - 1);
    }
    assert n < 0 ==> PrintInt(n)[1..] == Print(m);
  }

  // ---------------------------------------------------------------- /proc/<pid>/stat

  predicate Space(c: char) {
    c == ' ' || '\t' <= c <= '\r' || c as int == 0x85 || c as int == 0xA0 || c as int == 0x1680
    || 0x2000 <= c as int <= 0x200A || c as int in [0x2028, 0x2029, 0x202F, 0x205F, 0x3000]
  }

  function Word(s: string): string {
    if s == [] || Space(s[0]) then [] else [s[0]] + Word(s[1..])
  }

  lemma WordFits(s: string)
    ensures |Word(s)| <= |s| && (s != [] && !Space(s[0]) ==> |Word(s)| > 0)
  {
  }

  /** strings.Fields */
  function Fields(s: string): seq<string>
    decreases |s|
  {
    if s == [] then []
    else if Space(s[0]) then Fields(s[1..])
    else
      WordFits(s);
      [Word(s)] + Fields(s[|Word(s)|..])
  }

  function LastIndex(s: string, c: char): int {
    if s == [] then -1
    else if s[|s| - 1] == c then |s| - 1
    else LastIndex(s[..|s| - 1], c)
  }

  lemma LastIndexBound(s: string, c: char)
    ensures -1 <= LastIndex(s, c) < |s|
  {
  }

  datatype Stat = Stat(state: string, ppid: int, utime: nat, stime: nat, threads: int, start: nat)

  const MAX_U64: nat := 0xFFFF_FFFF_FFFF_FFFF
  const HALF_64: int := 0x8000_0000_0000_0000

  function ParseStat(data: string): Option<Stat> {
    var rparen := LastIndex(data, ')');
    LastIndexBound(data, ')');
    if rparen < 0 || rparen + 2 >= |data| then None
    else
      var fields := Fields(data[rparen + 2..]);
      if |fields| < 20 then None
      else Some(Stat(fields[0], ParseInt(fields[1], 10, HALF_64).0, ParseUint(fields[11], 10, MAX_U64).0,
                     ParseUint(fields[12], 10, MAX_U64).0, ParseInt(fields[17], 10, HALF_64).0,
                     ParseUint(fields[19], 10, MAX_U64).0))
  }

  /** Text up to a last closing parenthesis, a character after it, and at least twenty fields. */
  ghost predicate IsStat(data: string, i: nat) {
    i + 2 < |data| && data[i] == ')' && (forall j :: i < j < |data| ==> data[j] != ')') && |Fields(data[i + 2..])| >= 20
  }

  lemma {:induction false} LastIndexIs(s: string, c: char)
    ensures 0 <= LastIndex(s, c) < |s| ==> s[LastIndex(s, c)] == c
    ensures forall j: nat :: LastIndex(s, c) < j < |s| ==> s[j] != c
  {
    if s != [] {
      LastIndexBound(s[..|s| - 1], c);
      LastIndexIs(s[..|s| - 1], c);
    }
  }

  /** Exactly such lines are accepted. */
  lemma StatAcceptedIff(data: string)
    ensures ParseStat(data).Some? <==> exists i :: IsStat(data, i)
  {
    hide Fields, ParseInt, ParseUint;
    LastIndexIs(data, ')');
    LastIndexBound(data, ')');
    if ParseStat(data).Some? {
      assert IsStat(data, LastIndex(data, ')'));
    }
  }

  predicate IsField(w: string) {
    w != [] && forall i :: 0 <= i < |w| ==> !Space(w[i]) && w[i] != ')'
  }

  /** How the kernel lays out the line. */
  function Join(fields: seq<string>): string {
    if fields == [] then "\n"
    else fields[0] + (if |fields| == 1 then "\n" else " " + Join(fields[1..]))
  }

  function StatLine(pid: nat, comm: string, fields: seq<string>): string {
    Print(pid) + " (" + comm + ") " + Join(fields)
  }

  lemma {:induction false} WordOf(w: string, rest: string)
    requires forall i :: 0 <= i < |w| ==> !Space(w[i])
    requires rest != [] && Space(rest[0])
    ensures Word(w + rest) == w
  {
    hide Space;
    if w == [] {
      assert w + rest == rest;
    } else {
      assert (w + rest)[1..] == w[1..] + rest;
      WordOf(w[1..], rest);
    }
  }

  lemma FieldsStep(w: string, rest: string)
    requires IsField(w) && rest != [] && Space(rest[0])
    ensures Fields(w + rest) == [w] + Fields(rest[1..])
  {
    hide Space;
    WordOf(w, rest);
    assert (w + rest)[0] == w[0];
    assert (w + rest)[|w|..] == rest;
  }

  lemma {:induction false} FieldsOfJoin(fields: seq<string>)
    requires fields != [] && forall i :: 0 <= i < |fields| ==> IsField(fields[i])
    ensures Fields(Join(fields)) == fields
  {
    if |fields| == 1 {
      FieldsStep(fields[0], "\n");
      assert "\n"[1..] == [] && Fields([]) == [];
    } else {
      FieldsOfJoin(fields[1..]);
      FieldsStep(fields[0], " " + Join(fields[1..]));
      assert (" " + Join(fields[1..]))[1..] == Join(fields[1..]);
    }
  }

  lemma {:induction false} NoParenInJoin(fields: seq<string>)
    requires forall i :: 0 <= i < |fields| ==> IsField(fields[i])
    ensures Join(fields) != [] && forall i :: 0 <= i < |Join(fields)| ==> Join(fields)[i] != ')'
  {
    hide Space;
    if |fields| > 1 {
      NoParenInJoin(fields[1..]);
    }
  }

  lemma {:induction false} LastIndexOf(a: string, c: char, b: string)
    requires forall i :: 0 <= i < |b| ==> b[i] != c
    ensures LastIndex(a + [c] + b, c) == |a|
  {
    if b == [] {
      assert a + [c] + b == a + [c];
    } else {
      assert (a + [c] + b)[..|a + [c] + b| - 1] == a + [c] + b[..|b| - 1];
      LastIndexOf(a, c, b[..|b| - 1]);
    }
  }

  /** Whatever the process calls itself, spaces, parentheses and newlines included, the fields after
      its name come out as the kernel put them in. */
  lemma StatRoundTrip(pid: nat, comm: string, fields: seq<string>, want: Stat)
    requires |fields| >= 20 && forall i :: 0 <= i < |fields| ==> IsField(fields[i])
    requires fields[0] == want.state && fields[1] == PrintInt(want.ppid) && fields[11] == Print(want.utime)
    requires fields[12] == Print(want.stime) && fields[17] == PrintInt(want.threads)
    requires fields[19] == Print(want.start)
    requires want.utime <= MAX_U64 && want.stime <= MAX_U64 && want.start <= MAX_U64
    requires -HALF_64 <= want.ppid < HALF_64 && -HALF_64 <= want.threads < HALF_64
    ensures ParseStat(StatLine(pid, comm, fields)) == Some(want)
  {
    hide Print, Join, Fields, LastIndex, ParseInt, ParseUint, IsField, PrintInt;
    var head := Print(pid) + " (" + comm;
    var data := StatLine(pid, comm, fields);
    NoParenInJoin(fields);
    assert data == head + [')'] + (" " + Join(fields));
    LastIndexOf(head, ')', " " + Join(fields));
    assert data[|head| + 2..] == Join(fields);
    FieldsOfJoin(fields);
    UintRoundTrip(want.utime, MAX_U64);
    UintRoundTrip(want.stime, MAX_U64);
    UintRoundTrip(want.start, MAX_U64);
    IntRoundTrip(want.ppid, HALF_64);
    IntRoundTrip(want.threads, HALF_64);
  }

  // ---------------------------------------------------------------- socket addresses

  datatype Addr = V4(v4: seq<Byte>) | V6(v6: seq<Byte>)
  datatype Endpoint = BadAddress | Endpoint(addr: Addr, port: nat)

  /** byte(n), byte(n>>8), byte(n>>16), byte(n>>24) */
  function LittleEndian(n: nat): seq<Byte> {
    [n % 256, n / 256 % 256, n / 65536 % 256, n / 16777216 % 256]
  }

  function WordOfBytes(b: seq<Byte>): nat
    requires |b| == 4
  {
    var (b0: int, b1: int, b2: int, b3: int) := (b[0], b[1], b[2], b[3]);
    b0 + 256 * (b1 + 256 * (b2 + 256 * b3))
  }

  function Count(s: string, c: char): nat {
    if s == [] then 0 else (if s[0] == c then 1 else 0) + Count(s[1..], c)
  }

  function Before(s: string, c: char): string {
    if s == [] || s[0] == c then [] else [s[0]] + Before(s[1..], c)
  }

  /** strings.Split(s, ":") when it has two parts. */
  function Halves(s: string): Option<(string, string)> {
    if Count(s, ':') != 1 then None
    else
      var a := Before(s, ':');
      BeforeFits(s, ':');
      Some((a, s[|a| + 1..]))
  }

  lemma BeforeFits(s: string, c: char)
    requires Count(s, c) >= 1
    ensures |Before(s, c)| < |s| && s[|Before(s, c)|] == c
  {
  }

  /** intToIP */
  function IntToIP(n: U32): Addr { V4(LittleEndian(n)) }

  /** parseHexAddr */
  function ParseHexAddr(s: string): (Addr, int) {
    var halves := Halves(s);
    if halves.None? then (V4([0, 0, 0, 0]), 0)
    else (V4(LittleEndian(ParseUint(halves.value.0, 16, 0xFFFF_FFFF).0)), ParseInt(halves.value.1, 16, 0x8000_0000).0)
  }

  function DecodeEndpoint(s: string): Endpoint {
    var halves := Halves(s);
    if halves.None? then BadAddress
    else
      var (ip, (port, ok)) := (halves.value.0, ParseUint(halves.value.1, 16, 0xFFFF));
      if !ok then BadAddress
      else if |ip| == 8 then
        var (n, good) := ParseUint(ip, 16, 0xFFFF_FFFF);
        if good then Endpoint(V4(LittleEndian(n)), port) else BadAddress
      else if |ip| == 32 then
        var bytes := FourWords(ip);
        if bytes.None? then BadAddress else Endpoint(V6(bytes.value), port)
      else BadAddress
  }

  function FourWords(ip: string): Option<seq<Byte>>
    requires |ip| % 8 == 0
  {
    if ip == [] then Some([])
    else
      var init := FourWords(ip[..|ip| - 8]);
      var (n, good) := ParseUint(ip[|ip| - 8..], 16, 0xFFFF_FFFF);
      if init.None? || !good then None else Some(init.value + LittleEndian(n))
  }

  /** parseHexIPPort; the sixteen-byte case fills a buffer word by word. */
  method ParseHexIPPort(s: string) returns (e: Endpoint)
    ensures e == DecodeEndpoint(s)
  {
    hide ParseUint, Halves, LittleEndian;
    var halves := Halves(s);
    if halves.None? {
      return BadAddress;
    }
    var (port, ok) := ParseUint(halves.value.1, 16, 0xFFFF);
    if !ok {
      return BadAddress;
    }
    var ip := halves.value.0;
    if |ip| == 8 {
      var (n, good) := ParseUint(ip, 16, 0xFFFF_FFFF);
      return if good then Endpoint(V4(LittleEndian(n)), port) else BadAddress;
    }
    if |ip| != 32 {
      return BadAddress;
    }
    var b: seq<Byte> := [];
    for i := 0 to 4
      invariant FourWords(ip[..8 * i]) == Some(b)
    {
      var (word, good) := ParseUint(ip[8 * i..8 * (i + 1)], 16, 0xFFFF_FFFF);
      assert ip[..8 * (i + 1)][..8 * i] == ip[..8 * i];
      assert ip[..8 * (i + 1)][8 * i..] == ip[8 * i..8 * (i + 1)];
      if !good {
        BadWordSticks(ip, i + 1);
        return BadAddress;
      }
      b := b + LittleEndian(word);
    }
    assert ip[..32] == ip;
    e := Endpoint(V6(b), port);
  }

  lemma {:induction false} BadWordSticks(ip: string, i: nat)
    requires |ip| % 8 == 0 && 8 * i <= |ip| && FourWords(ip[..8 * i]).None?
    ensures FourWords(ip).None?
    decreases |ip|
  {
    hide ParseUint;
    if 8 * i == |ip| {
      assert ip[..8 * i] == ip;
    } else {
      assert ip[..|ip| - 8][..8 * i] == ip[..8 * i];
      BadWordSticks(ip[..|ip| - 8], i);
    }
  }

  // ---------------------------------------------------------------- decoders undo the kernel's printing

  lemma BytesRoundTrip(b: seq<Byte>)
    requires |b| == 4
    ensures WordOfBytes(b) < U32_SIZE && LittleEndian(WordOfBytes(b)) == b
  {
    var n := WordOfBytes(b);
    var (b0: int, b1: int, b2: int, b3: int) := (b[0], b[1], b[2], b[3]);
    var n2 := b2 + 256 * b3;
    var n1 := b1 + 256 * n2;
    assert n == b0 + 256 * n1 && n % 256 == b[0] && n / 256 == n1;
    assert n1 % 256 == b[1] && n1 / 256 == n2;
    assert n2 % 256 == b[2] && n2 / 256 == b[3];
    assert n / 65536 == n1 / 256 && n / 16777216 == n2 / 256;
  }

  lemma WordRoundTrip(n: nat)
    requires n < U32_SIZE
    ensures WordOfBytes(LittleEndian(n)) == n
  {
    assert n / 65536 == n / 256 / 256 && n / 16777216 == n / 256 / 256 / 256;
  }

  lemma HexParses(n: nat, width: nat, max: nat)
    requires 0 < width && n <= max && n < Pow16(width)
    ensures ParseUint(Hex(n, width), 16, max) == (n, true)
  {
    HexLength(n, width);
    ScanHex(n, width, max);
  }

  lemma {:induction false} HalvesOf(a: string, b: string)
    requires (forall i :: 0 <= i < |a| ==> a[i] != ':') && forall i :: 0 <= i < |b| ==> b[i] != ':'
    ensures Count(a + ":" + b, ':') == 1 && Before(a + ":" + b, ':') == a
    ensures Halves(a + ":" + b) == Some((a, b))
  {
    if a == [] {
      assert a + ":" + b == ":" + b && (":" + b)[1..] == b;
      NoneToCount(b, ':');
    } else {
      assert (a + ":" + b)[1..] == a[1..] + ":" + b;
      HalvesOf(a[1..], b);
      assert (a + ":" + b)[|a| + 1..] == b;
    }
  }

  lemma {:induction false} NoneToCount(s: string, c: char)
    requires forall i :: 0 <= i < |s| ==> s[i] != c
    ensures Count(s, c) == 0
  {
    if s != [] { NoneToCount(s[1..], c); }
  }

  /** What /proc/net/tcp prints for an IPv4 socket. */
  function V4Text(b: seq<Byte>, port: nat): string
    requires |b| == 4
  {
    Hex(WordOfBytes(b), 8) + ":" + Hex(port, 4)
  }

  lemma Powers()
    ensures Pow16(8) == U32_SIZE && Pow16(4) == 0x1_0000
  {
    assert Pow16(2) == 256 && Pow16(3) == 4096 && Pow16(4) == 65536;
    assert Pow16(6) == 256 * Pow16(4);
    assert Pow16(8) == 256 * Pow16(6);
  }

  /** All three decoders name the same IPv4 address for the same kernel word. */
  lemma ThreeDecodersAgree(b: seq<Byte>, port: nat)
    requires |b| == 4 && port < 0x1_0000
    ensures DecodeEndpoint(V4Text(b, port)) == Endpoint(V4(b), port)
    ensures ParseHexAddr(V4Text(b, port)) == (V4(b), port)
    ensures WordOfBytes(b) < U32_SIZE && IntToIP(WordOfBytes(b)) == V4(b)
  {
    hide Hex, Pow16, LittleEndian, WordOfBytes, Halves, ParseUint;
    var (ip, p) := (Hex(WordOfBytes(b), 8), Hex(port, 4));
    BytesRoundTrip(b);
    Powers();
    HexLength(WordOfBytes(b), 8);
    HexLength(port, 4);
    HalvesOf(ip, p);
    HexParses(WordOfBytes(b), 8, 0xFFFF_FFFF);
    HexParses(port, 4, 0xFFFF);
    SignedPort(p, port);
  }

  /** On any text at all: whenever the first decoder accepts an IPv4 endpoint, the second reads the same. */
  lemma DecodersAgreeOnV4(s: string)
    requires DecodeEndpoint(s).Endpoint? && DecodeEndpoint(s).addr.V4?
    ensures ParseHexAddr(s) == (DecodeEndpoint(s).addr, DecodeEndpoint(s).port)
  {
    hide Halves, LittleEndian, Scan;
    var (ip, p) := Halves(s).value;
    SignedPort(p, ParseUint(p, 16, 0xFFFF).0);
  }

  /** The lenient decoder never fails: without two halves it names 0.0.0.0 and no port; an address that is not
      hexadecimal is 0.0.0.0 too, and one that is too large the last address. */
  lemma LenientOtherwise(s: string)
    ensures Count(s, ':') != 1 ==> ParseHexAddr(s) == (V4([0, 0, 0, 0]), 0)
    ensures Halves(s).Some? && !IsHex(Halves(s).value.0) && |Halves(s).value.0| <= 8 ==>
              ParseHexAddr(s).0 == V4([0, 0, 0, 0])
    ensures Halves(s).Some? && IsHex(Halves(s).value.0) && HexValue(0, Halves(s).value.0) > 0xFFFF_FFFF ==>
              ParseHexAddr(s).0 == V4([255, 255, 255, 255])
  {
    hide HexValue, Count, Before, ParseInt;
    if Halves(s).Some? {
      var ip := Halves(s).value.0;
      if IsHex(ip) {
        if HexValue(0, ip) > 0xFFFF_FFFF {
          assert ip != [] by { NoDigits(); }
          TooMuchHex(ip, 0xFFFF_FFFF, 0);
        }
      } else if |ip| <= 8 {
        SomePower(8 - |ip|);
        NotHex(ip, 0);
      }
    }
  }

  lemma {:induction false} SomePower(width: nat)
    ensures Pow16(width) > 0
  {
    if width > 0 { SomePower(width - 1); }
  }

  lemma NoDigits()
    ensures HexValue(0, []) == 0
  {
  }

  lemma {:induction false} TooMuchHex(s: string, max: nat, acc: nat)
    requires IsHex(s) && acc <= max < HexValue(acc, s)
    ensures Scan(s, 16, max, acc) == (max, false)
  {
    var next := Push(acc, 16, Digit(s[0]).value);
    if next <= max {
      TooMuchHex(s[1..], max, next);
    }
  }

  /** The first eight characters cannot add up to too much, so what is not a digit is noticed. */
  lemma {:induction false} NotHex(s: string, acc: nat)
    requires !IsHex(s) && |s| <= 8 && acc < Pow16(8 - |s|)
    ensures Scan(s, 16, 0xFFFF_FFFF, acc) == (0, false)
    decreases |s|
  {
    var d := Digit(s[0]);
    if d.Some? && d.value < 16 {
      Room(8 - |s|, acc, d.value);
      assert s == [s[0]] + s[1..];
      NotHex(s[1..], Push(acc, 16, d.value));
    }
  }

  lemma Room(width: nat, acc: nat, d: nat)
    requires width < 8 && acc < Pow16(width) && d < 16
    ensures Push(acc, 16, d) < Pow16(width + 1) && Push(acc, 16, d) <= 0xFFFF_FFFF
  {
    WidthsGrow(width + 1);
  }

  lemma {:induction false} WidthsGrow(width: nat)
    requires width <= 8
    ensures Pow16(width) <= U32_SIZE
    decreases 8 - width
  {
    if width == 8 {
      Powers();
    } else {
      WidthsGrow(width + 1);
    }
  }

  lemma SignedPort(p: string, port: nat)
    requires ParseUint(p, 16, 0xFFFF) == (port, true)
    ensures ParseInt(p, 16, 0x8000_0000) == (port, true)
  {
    assert Digit('-').None? && Digit('+').None?;
    assert port <= 0xFFFF && ParseUint(p, 16, 0xFFFF_FFFF) == (port, true) by {
      WiderScan(p, 16, 0xFFFF, 0xFFFF_FFFF, 0);
    }
  }

  lemma {:induction false} WiderScan(s: string, base: nat, max: nat, wide: nat, acc: nat)
    requires acc <= max <= wide && Scan(s, base, max, acc).1
    ensures Scan(s, base, wide, acc) == Scan(s, base, max, acc) && Scan(s, base, max, acc).0 <= max
  {
    if s != [] {
      hide Push, Digit;
      WiderScan(s[1..], base, max, wide, Push(acc, base, Digit(s[0]).value));
    }
  }

  /** What /proc/net/tcp6 prints: each aligned four-byte group as one word. */
  function V6Hex(b: seq<Byte>): string
    requires |b| % 4 == 0
  {
    if b == [] then [] else V6Hex(b[..|b| - 4]) + Hex(WordOfBytes(b[|b| - 4..]), 8)
  }

  lemma {:induction false} V6Printed(b: seq<Byte>)
    requires |b| % 4 == 0
    ensures |V6Hex(b)| == 2 * |b| && forall i :: 0 <= i < |V6Hex(b)| ==> V6Hex(b)[i] != ':'
  {
    if b != [] {
      hide Hex, WordOfBytes;
      V6Printed(b[..|b| - 4]);
      HexLength(WordOfBytes(b[|b| - 4..]), 8);
    }
  }

  lemma {:induction false} V6Words(b: seq<Byte>)
    requires |b| % 4 == 0
    ensures |V6Hex(b)| % 8 == 0 && FourWords(V6Hex(b)) == Some(b)
  {
    hide Hex, WordOfBytes, FourWords, V6Word, V6Hex;
    if b == [] {
      NoWords();
    } else {
      var (front, last) := (b[..|b| - 4], b[|b| - 4..]);
      V6Words(front);
      V6Next(b);
      WordPrinted(last);
      OneMoreWord(V6Hex(front), front, Hex(WordOfBytes(last), 8), last);
      assert front + last == b;
    }
  }

  lemma NoWords()
    ensures V6Hex([]) == [] && FourWords([]) == Some([])
  {
  }

  lemma V6Next(b: seq<Byte>)
    requires |b| % 4 == 0 && b != []
    ensures |b| >= 4 && V6Hex(b) == V6Hex(b[..|b| - 4]) + Hex(WordOfBytes(b[|b| - 4..]), 8)
  {
    hide Hex, WordOfBytes;
  }

  /** A word and the text it decodes from. */
  ghost predicate V6Word(text: string, b: seq<Byte>) {
    |text| == 8 && ParseUint(text, 16, 0xFFFF_FFFF).1 && LittleEndian(ParseUint(text, 16, 0xFFFF_FFFF).0) == b
  }

  lemma WordPrinted(b: seq<Byte>)
    requires |b| == 4
    ensures V6Word(Hex(WordOfBytes(b), 8), b)
  {
    hide Hex, ParseUint, WordOfBytes, LittleEndian, Pow16;
    BytesRoundTrip(b);
    HexLength(WordOfBytes(b), 8);
    Powers();
    HexParses(WordOfBytes(b), 8, 0xFFFF_FFFF);
  }

  lemma OneMoreWord(front: string, bytes: seq<Byte>, last: string, word: seq<Byte>)
    requires |front| % 8 == 0 && FourWords(front) == Some(bytes) && V6Word(last, word)
    ensures |front + last| % 8 == 0 && FourWords(front + last) == Some(bytes + word)
  {
    hide ParseUint, LittleEndian;
    var all := front + last;
    assert all[..|all| - 8] == front && all[|all| - 8..] == last;
  }

  lemma V6RoundTrip(b: seq<Byte>, port: nat)
    requires |b| == 16 && port < 0x1_0000
    ensures DecodeEndpoint(V6Hex(b) + ":" + Hex(port, 4)) == Endpoint(V6(b), port)
  {
    hide Hex, ParseUint, Halves, V6Hex, FourWords, Pow16;
    V6Printed(b);
    V6Words(b);
    Powers();
    HexLength(port, 4);
    HalvesOf(V6Hex(b), Hex(port, 4));
    HexParses(port, 4, 0xFFFF);
  }

  // ---------------------------------------------------------------- what is an endpoint

  predicate IsHex(s: string) {
    forall i :: 0 <= i < |s| ==> '0' <= s[i] <= '9' || 'a' <= s[i] <= 'f' || 'A' <= s[i] <= 'F'
  }

  function HexDigit(c: char): nat {
    if c >= 'a' then c as int - 87 else if c >= 'A' then c as int - 55 else if c >= '0' then c as int - 48 else 0
  }

  /** The number that hexadecimal digits, upper or lower case, make of the one before them. */
  function HexValue(acc: nat, s: string): nat
    decreases s
  {
    if s == [] then acc else HexValue(acc * 16 + HexDigit(s[0]), s[1..])
  }

  lemma {:induction false} HexValueRange(acc: nat, s: string)
    requires IsHex(s)
    ensures acc <= HexValue(acc, s) < (acc + 1) * Pow16(|s|)
    decreases s
  {
    if s != [] {
      hide HexDigit;
      HexDigitRange(s[0]);
      HexValueRange(acc * 16 + HexDigit(s[0]), s[1..]);
      Scales(acc * 16 + HexDigit(s[0]) + 1, acc + 1, Pow16(|s| - 1));
    }
  }

  lemma HexDigitRange(c: char)
    requires IsHex([c])
    ensures HexDigit(c) < 16
  {
    assert [c][0] == c;
  }

  lemma Scales(a: nat, b: nat, p: nat)
    requires a <= 16 * b
    ensures a * p <= b * (16 * p)
  {
    assert b * (16 * p) == 16 * b * p;
  }

  lemma {:induction false} ScanIs(s: string, max: nat, acc: nat)
    requires acc <= max
    ensures Scan(s, 16, max, acc).1 <==> IsHex(s) && HexValue(acc, s) <= max
    ensures Scan(s, 16, max, acc).1 ==> Scan(s, 16, max, acc).0 == HexValue(acc, s)
  {
    if s != [] {
      var d := Digit(s[0]);
      if d.Some? && d.value < 16 {
        if acc * 16 + d.value <= max {
          ScanIs(s[1..], max, acc * 16 + d.value);
        } else if IsHex(s) {
          HexValueRange(acc * 16 + d.value, s[1..]);
        }
      }
    }
  }

  lemma {:induction false} HalvesAre(s: string)
    ensures Halves(s).Some? ==> s == Halves(s).value.0 + ":" + Halves(s).value.1
  {
    if Count(s, ':') == 1 {
      BeforeFits(s, ':');
      BeforeIsPrefix(s, ':');
    }
  }

  lemma {:induction false} BeforeIsPrefix(s: string, c: char)
    ensures Before(s, c) <= s
  {
    if s != [] { BeforeIsPrefix(s[1..], c); }
  }

  lemma ParsesHex(s: string, max: nat)
    ensures ParseUint(s, 16, max).1 <==> s != [] && IsHex(s) && HexValue(0, s) <= max
    ensures ParseUint(s, 16, max).1 ==> ParseUint(s, 16, max).0 == HexValue(0, s)
  {
    hide Scan, HexValue, IsHex;
    ScanIs(s, max, 0);
  }

  lemma WordParses(s: string)
    requires |s| == 8
    ensures ParseUint(s, 16, 0xFFFF_FFFF).1 <==> IsHex(s)
    ensures IsHex(s) ==> ParseUint(s, 16, 0xFFFF_FFFF).0 == HexValue(0, s)
  {
    hide ParseUint, Pow16, HexValue, IsHex;
    ParsesHex(s, 0xFFFF_FFFF);
    Powers();
    if IsHex(s) {
      HexValueRange(0, s);
    }
  }

  /** The k-th group of eight digits gives the bytes of the k-th word. */
  ghost predicate WordAt(ip: string, bytes: seq<Byte>, k: nat)
    requires 8 * k + 8 <= |ip| && 4 * k + 4 <= |bytes|
  {
    bytes[4 * k..4 * k + 4] == LittleEndian(HexValue(0, ip[8 * k..8 * k + 8]))
  }

  /** Hexadecimal digits, and only they, give bytes, each group its four. */
  ghost predicate WordsOk(ip: string, bytes: Option<seq<Byte>>) {
    && (bytes.Some? <==> IsHex(ip))
    && (bytes.Some? ==>
          2 * |bytes.value| == |ip| && forall k: nat :: 8 * k + 8 <= |ip| ==> WordAt(ip, bytes.value, k))
  }

  lemma {:induction false} WordsAre(ip: string)
    requires |ip| % 8 == 0
    ensures WordsOk(ip, FourWords(ip))
  {
    if ip != [] {
      hide ParseUint, LittleEndian, HexValue, WordsOk, IsHex;
      var (front, last) := (ip[..|ip| - 8], ip[|ip| - 8..]);
      WordsAre(front);
      WordParses(last);
      assert ip == front + last;
      HexJoins(front, last);
      if FourWords(front).Some? && IsHex(last) {
        OneMoreGroup(front, FourWords(front).value, last);
      } else {
        NoWordsFor(front, last, FourWords(front));
      }
    }
  }

  lemma NoWordsFor(front: string, last: string, bytes: Option<seq<Byte>>)
    requires WordsOk(front, bytes) && (bytes.None? || !IsHex(last))
    ensures WordsOk(front + last, None)
  {
    HexJoins(front, last);
  }

  lemma OneMoreGroup(front: string, bytes: seq<Byte>, last: string)
    requires |front| % 8 == 0 && |last| == 8 && IsHex(last) && WordsOk(front, Some(bytes))
    ensures WordsOk(front + last, Some(bytes + LittleEndian(HexValue(0, last))))
  {
    hide LittleEndian, HexValue, IsHex;
    var (ip, now) := (front + last, bytes + LittleEndian(HexValue(0, last)));
    LittleEndianLength(HexValue(0, last));
    HexJoins(front, last);
    forall k: nat | 8 * k + 8 <= |ip| ensures WordAt(ip, now, k) {
      if 8 * k < |front| {
        assert WordAt(front, bytes, k);
        assert front[8 * k..8 * k + 8] == ip[8 * k..8 * k + 8] && bytes[4 * k..4 * k + 4] == now[4 * k..4 * k + 4];
      } else {
        assert ip[8 * k..8 * k + 8] == last && now[4 * k..4 * k + 4] == now[|bytes|..];
      }
    }
  }

  lemma HexJoins(a: string, b: string)
    ensures IsHex(a + b) <==> IsHex(a) && IsHex(b)
  {
    if IsHex(a + b) {
      assert forall i :: 0 <= i < |a| ==> (a + b)[i] == a[i];
      assert forall i :: 0 <= i < |b| ==> (a + b)[|a| + i] == b[i];
    }
  }

  /** Text of an endpoint: 8 or 32 hexadecimal digits, a colon, a hexadecimal port of any length up to FFFF. */
  ghost predicate IsEndpoint(s: string, ip: string, port: string) {
    s == ip + ":" + port && (|ip| == 8 || |ip| == 32) && IsHex(ip)
    && port != [] && IsHex(port) && HexValue(0, port) <= 0xFFFF
  }

  lemma EndpointOf(s: string, ip: string, port: string)
    requires IsEndpoint(s, ip, port)
    ensures DecodeEndpoint(s).Endpoint? && Halves(s) == Some((ip, port))
    ensures var e := DecodeEndpoint(s);
            && e.port == HexValue(0, port)
            && (if |ip| == 8 then e.addr == V4(LittleEndian(HexValue(0, ip)))
                else e.addr.V6? && |e.addr.v6| == 16 && forall k: nat :: k < 4 ==> WordAt(ip, e.addr.v6, k))
  {
    hide ParseUint, LittleEndian, HexValue, FourWords, Halves, WordAt;
    assert Halves(s) == Some((ip, port)) by { HalvesOf(ip, port); }
    ParsesHex(port, 0xFFFF);
    if |ip| == 8 {
      WordParses(ip);
    } else {
      WordsAre(ip);
    }
  }

  /** The strict decoder accepts exactly the texts of endpoints, in either case of letters. */
  lemma AcceptedIff(s: string)
    ensures DecodeEndpoint(s).Endpoint? <==> exists ip, port :: IsEndpoint(s, ip, port)
  {
    hide ParseUint, LittleEndian, HexValue, FourWords, Halves, IsHex;
    if DecodeEndpoint(s).Endpoint? {
      var (ip, port) := Halves(s).value;
      HalvesAre(s);
      ParsesHex(port, 0xFFFF);
      if |ip| == 8 {
        WordParses(ip);
      } else {
        WordsAre(ip);
      }
      assert IsEndpoint(s, ip, port);
    }
    if ip, port :| IsEndpoint(s, ip, port) {
      EndpointOf(s, ip, port);
    }
  }

  // ---------------------------------------------------------------- flow keys

  /** The dotted form of an IPv4 address. */
  function Dotted(b: seq<Byte>): string
    requires |b| == 4
  {
    Print(b[0]) + "." + (Print(b[1]) + "." + (Print(b[2]) + "." + Print(b[3])))
  }

  /** fmt.Sprintf("tcp:%s:%d", intToIP(daddr), dport) */
  function FlowKey(daddr: U32, dport: nat): string {
    "tcp:" + (Dotted(LittleEndian(daddr)) + ":" + Print(dport))
  }

  lemma {:induction false} SplitUnique(a: string, b: string, a': string, b': string, c: char)
    requires (forall i :: 0 <= i < |a| ==> a[i] != c) && forall i :: 0 <= i < |a'| ==> a'[i] != c
    requires a + [c] + b == a' + [c] + b'
    ensures a == a' && b == b'
  {
    assert (a + [c] + b)[|a|] == c && (a' + [c] + b')[|a'|] == c;
    assert (a + [c] + b)[|a| + 1..] == b && (a' + [c] + b')[|a'| + 1..] == b';
    if a != [] && a' != [] {
      assert (a + [c] + b)[0] == a[0] && (a' + [c] + b')[0] == a'[0];
      assert (a + [c] + b)[1..] == a[1..] + [c] + b && (a' + [c] + b')[1..] == a'[1..] + [c] + b';
      SplitUnique(a[1..], b, a'[1..], b', c);
    }
  }

  lemma PrintInjective(m: nat, n: nat)
    requires Print(m) == Print(n)
    ensures m == n
  {
    ScanPrint(m, m + n);
    ScanPrint(n, m + n);
  }

  lemma DottedInjective(a: seq<Byte>, b: seq<Byte>)
    requires |a| == 4 && |b| == 4 && Dotted(a) == Dotted(b)
    ensures a == b
  {
    hide Print;
    PrintChars(a[0]); PrintChars(a[1]); PrintChars(a[2]);
    PrintChars(b[0]); PrintChars(b[1]); PrintChars(b[2]);
    SplitUnique(Print(a[0]), Print(a[1]) + "." + (Print(a[2]) + "." + Print(a[3])),
                Print(b[0]), Print(b[1]) + "." + (Print(b[2]) + "." + Print(b[3])), '.');
    SplitUnique(Print(a[1]), Print(a[2]) + "." + Print(a[3]),
                Print(b[1]), Print(b[2]) + "." + Print(b[3]), '.');
    SplitUnique(Print(a[2]), Print(a[3]), Print(b[2]), Print(b[3]), '.');
    forall i | 0 <= i < 4 ensures a[i] == b[i] { PrintInjective(a[i], b[i]); }
  }

  lemma DottedChars(a: seq<Byte>)
    requires |a| == 4
    ensures forall i :: 0 <= i < |Dotted(a)| ==> Dotted(a)[i] != ':'
  {
    hide Print;
    PrintChars(a[0]); PrintChars(a[1]); PrintChars(a[2]); PrintChars(a[3]);
  }

  /** Two connections share a flow entry exactly if they go to the same address and port. */
  lemma FlowKeyInjective(d: U32, p: nat, d': U32, p': nat)
    ensures FlowKey(d, p) == FlowKey(d', p') <==> d == d' && p == p'
  {
    if FlowKey(d, p) == FlowKey(d', p') {
      hide Dotted, Print, LittleEndian, WordOfBytes;
      var (a, a') := (LittleEndian(d), LittleEndian(d'));
      assert |a| == 4 && |a'| == 4 by { LittleEndianLength(d); LittleEndianLength(d'); }
      DottedChars(a);
      DottedChars(a');
      assert FlowKey(d, p)[4..] == Dotted(a) + ":" + Print(p);
      assert FlowKey(d', p')[4..] == Dotted(a') + ":" + Print(p');
      SplitUnique(Dotted(a), Print(p), Dotted(a'), Print(p'), ':');
      DottedInjective(a, a');
      PrintInjective(p, p');
      WordRoundTrip(d);
      WordRoundTrip(d');
    }
  }

  lemma LittleEndianLength(n: nat)
    ensures |LittleEndian(n)| == 4
  {
  }
}
