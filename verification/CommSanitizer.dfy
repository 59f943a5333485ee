/** The sanitizer of configured process names (backend/internal/config/validate.go), which makes the
    kernel's prefix match well defined.

    A Go string is its bytes; ranging over it decodes UTF-8 (section 3 of RFC 3629), with U+FFFD, one byte
    at a time, for whatever is not well formed.  The Unicode classes of runes are parameters. */
module CommSanitizer {
  import opened MachineTypes

  const MAX_COMM_LEN := 15

  // ---------------------------------------------------------------- UTF-8

  type Rune = r: int | 0 <= r < 0xD800 || 0xE000 <= r < 0x11_0000

  const BAD: Rune := 0xFFFD

  function Utf8(r: Rune): seq<Byte> {
    if r < 0x80 then [r]
    else if r < 0x800 then [0xC0 + r / 0x40, 0x80 + r % 0x40]
    else if r < 0x1_0000 then [0xE0 + r / 0x1000, 0x80 + r / 0x40 % 0x40, 0x80 + r % 0x40]
    else [0xF0 + r / 0x4_0000, 0x80 + r / 0x1000 % 0x40, 0x80 + r / 0x40 % 0x40, 0x80 + r % 0x40]
  }

  predicate Tail(b: Byte) { 0x80 <= b <= 0xBF }

  /** The second byte excludes overlong forms, surrogates and what lies beyond the last rune. */
  predicate Second(first: Byte, b: Byte) {
    && (if first == 0xE0 then 0xA0 else if first == 0xF0 then 0x90 else 0x80) <= b
    && b <= (if first == 0xED then 0x9F else if first == 0xF4 then 0x8F else 0xBF)
  }

  function Two(a: Byte, b: Byte): int { (a - 0xC0) * 0x40 + (b - 0x80) }

  function Three(a: Byte, b: Byte, c: Byte): int { (a - 0xE0) * 0x1000 + (b - 0x80) * 0x40 + (c - 0x80) }

  function Four(a: Byte, b: Byte, c: Byte, d: Byte): int {
    (a - 0xF0) * 0x4_0000 + (b - 0x80) * 0x1000 + (c - 0x80) * 0x40 + (d - 0x80)
  }

  /** The first rune and the number of bytes it takes. */
  function DecodeOne(b: seq<Byte>): (r: (Rune, nat))
    requires b != []
    ensures 0 < r.1 <= |b|
  {
    if b[0] < 0x80 then (b[0], 1)
    else if 0xC2 <= b[0] <= 0xDF && |b| >= 2 && Tail(b[1]) then (Two(b[0], b[1]), 2)
    else if 0xE0 <= b[0] <= 0xEF && |b| >= 3 && Second(b[0], b[1]) && Tail(b[2]) then (Three(b[0], b[1], b[2]), 3)
    else if 0xF0 <= b[0] <= 0xF4 && |b| >= 4 && Second(b[0], b[1]) && Tail(b[2]) && Tail(b[3]) then
      (Four(b[0], b[1], b[2], b[3]), 4)
    else (BAD, 1)
  }

  /** for _, r := range s */
  function Decode(b: seq<Byte>): seq<Rune> {
    if b == [] then []
    else
      var (r, n) := DecodeOne(b);
      [r] + Decode(b[n..])
  }

  function AllUtf8(rs: seq<Rune>): seq<Byte> {
    if rs == [] then [] else AllUtf8(rs[..|rs| - 1]) + Utf8(rs[|rs| - 1])
  }

  lemma DecodeTwo(r: Rune, b: seq<Byte>)
    requires 0x80 <= r < 0x800 && Utf8(r) <= b
    ensures DecodeOne(b) == (r, 2)
  {
    assert b[0] == Utf8(r)[0] && b[1] == Utf8(r)[1];
  }

  lemma Sextets(r: nat)
    ensures r / 0x1000 == r / 0x40 / 0x40 && r / 0x4_0000 == r / 0x40 / 0x40 / 0x40
  {
  }

  lemma DecodeThree(r: Rune, b: seq<Byte>)
    requires 0x800 <= r < 0x1_0000 && Utf8(r) <= b
    ensures DecodeOne(b) == (r, 3)
  {
    assert b[0] == Utf8(r)[0] && b[1] == Utf8(r)[1] && b[2] == Utf8(r)[2];
    Sextets(r);
  }

  lemma DecodeFour(r: Rune, b: seq<Byte>)
    requires 0x1_0000 <= r && Utf8(r) <= b
    ensures DecodeOne(b) == (r, 4)
  {
    assert b[0] == Utf8(r)[0] && b[1] == Utf8(r)[1] && b[2] == Utf8(r)[2] && b[3] == Utf8(r)[3];
    Sextets(r);
  }

  lemma DecodeFirst(r: Rune, tail: seq<Byte>)
    ensures Decode(Utf8(r) + tail) == [r] + Decode(tail)
  {
    var b := Utf8(r) + tail;
    assert b[|Utf8(r)|..] == tail && Utf8(r) <= b;
    hide DecodeOne;
    assert DecodeOne(b) == (r, |Utf8(r)|) by { DecodeWhole(r, b); }
  }

  lemma DecodeWhole(r: Rune, b: seq<Byte>)
    requires Utf8(r) <= b
    ensures DecodeOne(b) == (r, |Utf8(r)|)
  {
    if r < 0x80 {
      assert b[0] == Utf8(r)[0];
    } else if r < 0x800 {
      DecodeTwo(r, b);
    } else if r < 0x1_0000 {
      DecodeThree(r, b);
    } else {
      DecodeFour(r, b);
    }
  }

  /** Decoding undoes encoding, and goes on with what follows. */
  lemma {:induction false} DecodeRunes(rs: seq<Rune>, tail: seq<Byte>)
    ensures Decode(AllUtf8(rs) + tail) == rs + Decode(tail)
  {
    hide Utf8, Decode;
    if rs == [] {
      assert AllUtf8(rs) + tail == tail;
    } else {
      var (front, r) := (rs[..|rs| - 1], rs[|rs| - 1]);
      assert AllUtf8(rs) + tail == AllUtf8(front) + (Utf8(r) + tail);
      DecodeRunes(front, Utf8(r) + tail);
      DecodeFirst(r, tail);
      assert rs == front + [r];
    }
  }

  /** A rune cut short is not well formed. */
  lemma DecodeCutShort(r: Rune, n: nat)
    requires 0 < n < |Utf8(r)|
    ensures BAD in Decode(Utf8(r)[..n])
  {
    var b := Utf8(r)[..n];
    assert b[0] == Utf8(r)[0];
    assert DecodeOne(b) == (BAD, 1);
  }

  lemma TwoBytes(a: Byte, b: Byte)
    requires 0xC2 <= a <= 0xDF && Tail(b)
    ensures Utf8(Two(a, b)) == [a, b]
  {
  }

  lemma ThreeBytes(a: Byte, b: Byte, c: Byte)
    requires 0xE0 <= a <= 0xEF && Second(a, b) && Tail(c)
    ensures 0x800 <= Three(a, b, c) < 0x1_0000 && !(0xD800 <= Three(a, b, c) < 0xE000) && Utf8(Three(a, b, c)) == [a, b, c]
  {
    var (x: int, y: int, z: int) := (a - 0xE0, b - 0x80, c - 0x80);
    var r := Three(a, b, c);
    assert r == (x * 0x40 + y) * 0x40 + z && r / 0x40 == x * 0x40 + y && r % 0x40 == z;
    Sextets(r);
  }

  lemma FourBytes(a: Byte, b: Byte, c: Byte, d: Byte)
    requires 0xF0 <= a <= 0xF4 && Second(a, b) && Tail(c) && Tail(d)
    ensures 0x1_0000 <= Four(a, b, c, d) < 0x11_0000 && Utf8(Four(a, b, c, d)) == [a, b, c, d]
  {
    var (w: int, x: int, y: int, z: int) := (a - 0xF0, b - 0x80, c - 0x80, d - 0x80);
    var r := Four(a, b, c, d);
    assert r == ((w * 0x40 + x) * 0x40 + y) * 0x40 + z;
    assert r / 0x40 == (w * 0x40 + x) * 0x40 + y && r % 0x40 == z;
    assert r / 0x40 / 0x40 == w * 0x40 + x && r / 0x40 % 0x40 == y;
    Sextets(r);
  }

  /** Decoding is strict: it finds a rune exactly where the text goes on with the encoding of that rune, and
      otherwise takes a single byte for U+FFFD. */
  lemma DecodeOneIff(b: seq<Byte>)
    requires b != []
    ensures forall r: Rune :: Utf8(r) <= b <==> DecodeOne(b) == (r, |Utf8(r)|)
    ensures (forall r: Rune :: !(Utf8(r) <= b)) ==> DecodeOne(b) == (BAD, 1)
  {
    hide Utf8;
    forall r: Rune | Utf8(r) <= b ensures DecodeOne(b) == (r, |Utf8(r)|) {
      DecodeWhole(r, b);
    }
    Found(b);
  }

  lemma Found(b: seq<Byte>)
    requires b != []
    ensures var (r, n) := DecodeOne(b); (r, n) == (BAD, 1) || (n == |Utf8(r)| && Utf8(r) <= b)
    ensures |Utf8(BAD)| == 3
  {
    hide Two, Three, Four, Tail, Second;
    if 0xC2 <= b[0] <= 0xDF && |b| >= 2 && Tail(b[1]) {
      TwoBytes(b[0], b[1]);
    } else if 0xE0 <= b[0] <= 0xEF && |b| >= 3 && Second(b[0], b[1]) && Tail(b[2]) {
      ThreeBytes(b[0], b[1], b[2]);
    } else if 0xF0 <= b[0] <= 0xF4 && |b| >= 4 && Second(b[0], b[1]) && Tail(b[2]) && Tail(b[3]) {
      FourBytes(b[0], b[1], b[2], b[3]);
    }
  }

  // ---------------------------------------------------------------- the sanitizer

  /** The Unicode classes the sanitizer consults. */
  datatype Classes = Classes(letter: Rune -> bool, digit: Rune -> bool, control: Rune -> bool, space: Rune -> bool)

  function TrimLeft(drop: Rune -> bool, s: seq<Rune>): seq<Rune> {
    if s != [] && drop(s[0]) then TrimLeft(drop, s[1..]) else s
  }

  function TrimRight(drop: Rune -> bool, s: seq<Rune>): seq<Rune> {
    if s != [] && drop(s[|s| - 1]) then TrimRight(drop, s[..|s| - 1]) else s
  }

  const NUL := (r: Rune) => r == 0

  function Trimmed(u: Classes, text: seq<Rune>): seq<Rune> {
    TrimRight(NUL, TrimLeft(NUL, TrimRight(u.space, TrimLeft(u.space, text))))
  }

  predicate Plain(u: Classes, r: Rune) {
    u.letter(r) || u.digit(r) || r in ['-' as int, '_' as int, '.' as int, ':' as int, '+' as int]
  }

  /** The rune that stands for an accepted one, or None if it makes the whole value unacceptable. */
  function Accept(u: Classes, r: Rune): Option<Rune> {
    if r == '/' as int || r == '\\' as int || r == 0 || u.control(r) then None
    else if Plain(u, r) then Some(r)
    else if r == ' ' as int then Some('_' as int)
    else None
  }

  function Cut(b: seq<Byte>): seq<Byte> {
    if |b| > MAX_COMM_LEN then b[..MAX_COMM_LEN] else b
  }

  function Accepted(u: Classes, s: seq<Rune>): seq<Rune> {
    if s == [] then []
    else
      var r := Accept(u, s[|s| - 1]);
      Accepted(u, s[..|s| - 1]) + if r.Some? then [r.value] else []
  }

  ghost predicate Acceptable(u: Classes, s: seq<Rune>) { forall i :: 0 <= i < |s| ==> Accept(u, s[i]).Some? }

  /** The sanitized form: nothing if a rune is unacceptable, else the accepted runes, cut to 15 bytes. */
  ghost function Sanitized(u: Classes, text: seq<Byte>): seq<Byte> {
    var s := Trimmed(u, Decode(text));
    if Acceptable(u, s) then Cut(AllUtf8(Accepted(u, s))) else []
  }

  method SanitizeComm(u: Classes, text: seq<Byte>) returns (out: seq<Byte>)
    ensures |out| <= MAX_COMM_LEN && 0 !in out
    ensures out == Sanitized(u, text)
  {
    hide TrimLeft, TrimRight, Utf8, Accept, Decode;
    var s := Trimmed(u, Decode(text));
    if s == [] {
      return [];
    }
    out := [];
    for i := 0 to |s|
      invariant 0 !in out
      invariant Acceptable(u, s[..i])
      invariant out == AllUtf8(Accepted(u, s[..i]))
    {
      var r := Accept(u, s[i]);
      if r.None? {
        assert !Acceptable(u, s);
        return [];
      }
      NoNul(u, s[i]);
      AcceptedNext(u, s, i);
      out := out + Utf8(r.value);
    }
    assert s[..|s|] == s;
    out := Cut(out);
  }

  lemma AcceptedNext(u: Classes, s: seq<Rune>, i: nat)
    requires i < |s| && Accept(u, s[i]).Some? && Acceptable(u, s[..i])
    ensures Acceptable(u, s[..i + 1])
    ensures Accepted(u, s[..i + 1]) == Accepted(u, s[..i]) + [Accept(u, s[i]).value]
    ensures AllUtf8(Accepted(u, s[..i + 1])) == AllUtf8(Accepted(u, s[..i])) + Utf8(Accept(u, s[i]).value)
  {
    hide Accept, Utf8;
    assert s[..i + 1][..i] == s[..i];
    var (front, r) := (Accepted(u, s[..i]), Accept(u, s[i]).value);
    assert (front + [r])[..|front|] == front;
  }

  lemma NoNul(u: Classes, r: Rune)
    requires Accept(u, r).Some?
    ensures 0 !in Utf8(Accept(u, r).value)
  {
  }

  // ---------------------------------------------------------------- what is accepted, and as what

  ghost predicate All(drop: Rune -> bool, s: seq<Rune>) { forall i :: 0 <= i < |s| ==> drop(s[i]) }

  /** No end of it is to be dropped. */
  ghost predicate CleanEnds(drop: Rune -> bool, s: seq<Rune>) { s != [] ==> !drop(s[0]) && !drop(s[|s| - 1]) }

  lemma {:induction false} TrimLeftIs(drop: Rune -> bool, s: seq<Rune>) returns (gone: seq<Rune>)
    ensures s == gone + TrimLeft(drop, s) && All(drop, gone)
    ensures TrimLeft(drop, s) != [] ==> !drop(TrimLeft(drop, s)[0])
  {
    if s != [] && drop(s[0]) {
      gone := TrimLeftIs(drop, s[1..]);
      gone := [s[0]] + gone;
    } else {
      gone := [];
    }
  }

  lemma {:induction false} TrimRightIs(drop: Rune -> bool, s: seq<Rune>) returns (gone: seq<Rune>)
    ensures s == TrimRight(drop, s) + gone && All(drop, gone)
    ensures TrimRight(drop, s) != [] ==> !drop(TrimRight(drop, s)[|TrimRight(drop, s)| - 1])
  {
    if s != [] && drop(s[|s| - 1]) {
      gone := TrimRightIs(drop, s[..|s| - 1]);
      gone := gone + [s[|s| - 1]];
    } else {
      gone := [];
    }
  }

  lemma TrimIs(drop: Rune -> bool, s: seq<Rune>) returns (left: seq<Rune>, right: seq<Rune>)
    ensures var t := TrimRight(drop, TrimLeft(drop, s));
            s == left + t + right && All(drop, left) && All(drop, right) && CleanEnds(drop, t)
  {
    left := TrimLeftIs(drop, s);
    right := TrimRightIs(drop, TrimLeft(drop, s));
    var t := TrimRight(drop, TrimLeft(drop, s));
    assert t != [] ==> t[0] == TrimLeft(drop, s)[0];
  }

  /** Trimming takes away white space at both ends, then NULs at both ends of what is left, and no more. */
  lemma TrimmedIs(u: Classes, text: seq<Rune>)
    returns (spaces: seq<Rune>, nuls: seq<Rune>, nuls': seq<Rune>, spaces': seq<Rune>)
    ensures var (t, inner) := (Trimmed(u, text), nuls + Trimmed(u, text) + nuls');
            && text == spaces + inner + spaces'
            && All(u.space, spaces) && All(u.space, spaces') && CleanEnds(u.space, inner)
            && (forall r :: r in nuls + nuls' ==> r == 0)
            && (t != [] ==> t[0] != 0 && t[|t| - 1] != 0)
  {
    hide TrimLeft, TrimRight;
    spaces, spaces' := TrimIs(u.space, text);
    nuls, nuls' := TrimIs(NUL, TrimRight(u.space, TrimLeft(u.space, text)));
  }

  /** Letters, digits, five marks and the space. */
  predicate Allowed(u: Classes, r: Rune) {
    && !u.control(r) && r !in [0x2F, 0x5C, 0]
    && (u.letter(r) || u.digit(r) || r in [0x2D, 0x5F, 0x2E, 0x3A, 0x2B, 0x20])
  }

  /** What is written for it: itself, or an underscore for a space. */
  function Shown(u: Classes, r: Rune): Rune { if r == 0x20 && !u.letter(r) && !u.digit(r) then 0x5F else r }

  lemma AcceptIs(u: Classes, r: Rune)
    ensures Accept(u, r) == if Allowed(u, r) then Some(Shown(u, r)) else None
  {
  }

  lemma {:induction false} AcceptedIs(u: Classes, s: seq<Rune>)
    requires forall i :: 0 <= i < |s| ==> Allowed(u, s[i])
    ensures Acceptable(u, s) && Accepted(u, s) == seq(|s|, i requires 0 <= i < |s| => Shown(u, s[i]))
  {
    hide Allowed, Shown, Accept;
    if s != [] {
      var (front, r) := (s[..|s| - 1], s[|s| - 1]);
      AcceptIs(u, r);
      AcceptedIs(u, front);
      assert s == front + [r];
    }
  }

  /** A name is taken exactly if something is left of it after trimming and every rune of that is allowed;
      then what is kept of it is its runes, underscores for spaces, in UTF-8, up to the fifteenth byte. */
  lemma NameIsTakenIff(u: Classes, text: seq<Byte>)
    ensures var t := Trimmed(u, Decode(text));
            && (Sanitized(u, text) != [] <==> t != [] && forall i :: 0 <= i < |t| ==> Allowed(u, t[i]))
            && (Sanitized(u, text) != [] ==>
                  var all := AllUtf8(seq(|t|, i requires 0 <= i < |t| => Shown(u, t[i])));
                  Sanitized(u, text) == if |all| > 15 then all[..15] else all)
  {
    hide Trimmed, Decode, Allowed, Shown, Accept, Utf8;
    var t := Trimmed(u, Decode(text));
    if forall i :: 0 <= i < |t| ==> Allowed(u, t[i]) {
      AcceptedIs(u, t);
      if t != [] {
        SomeBytes(Accepted(u, t));
      }
    } else {
      var i :| 0 <= i < |t| && !Allowed(u, t[i]);
      AcceptIs(u, t[i]);
    }
  }

  lemma SomeBytes(rs: seq<Rune>)
    requires rs != []
    ensures AllUtf8(rs) != []
  {
    assert |Utf8(rs[|rs| - 1])| > 0;
  }

  // ---------------------------------------------------------------- sanitizing twice

  /** Letters, digits and the five marks are neither white space nor control characters, and U+FFFD is
      neither a letter nor a digit nor white space. */
  ghost predicate Sane(u: Classes) {
    && (forall r: Rune :: Plain(u, r) ==> !u.space(r) && !u.control(r))
    && !Plain(u, BAD) && !u.space(BAD)
    && !Plain(u, 0) && !Plain(u, '/' as int) && !Plain(u, '\\' as int)
  }

  lemma {:induction false} AcceptedArePlain(u: Classes, s: seq<Rune>)
    requires Sane(u) && Acceptable(u, s)
    ensures |Accepted(u, s)| == |s|
    ensures forall i :: 0 <= i < |s| ==> Plain(u, Accepted(u, s)[i])
  {
    if s != [] {
      AcceptedArePlain(u, s[..|s| - 1]);
      assert Accept(u, s[|s| - 1]).Some?;
    }
  }

  lemma {:induction false} PlainIsAccepted(u: Classes, s: seq<Rune>)
    requires Sane(u) && forall i :: 0 <= i < |s| ==> Plain(u, s[i])
    ensures Acceptable(u, s) && Accepted(u, s) == s && Trimmed(u, s) == s
  {
    if s != [] {
      PlainIsAccepted(u, s[..|s| - 1]);
      assert Plain(u, s[0]) && Plain(u, s[|s| - 1]);
      assert s == s[..|s| - 1] + [s[|s| - 1]];
    }
  }

  lemma {:induction false} TrimKeeps(drop: Rune -> bool, s: seq<Rune>, r: Rune)
    requires r in s && !drop(r)
    ensures r in TrimLeft(drop, s) && r in TrimRight(drop, s)
    decreases |s|
  {
    if drop(s[0]) { TrimKeeps(drop, s[1..], r); }
    if drop(s[|s| - 1]) {
      assert r in s[..|s| - 1];
      TrimKeeps(drop, s[..|s| - 1], r);
    }
  }

  /** Text with a malformed byte is rejected. */
  lemma BadIsRejected(u: Classes, text: seq<Byte>)
    requires Sane(u) && BAD in Decode(text)
    ensures Sanitized(u, text) == []
  {
    hide Decode, TrimLeft, TrimRight;
    var s := Decode(text);
    TrimKeeps(u.space, s, BAD);
    TrimKeeps(u.space, TrimLeft(u.space, s), BAD);
    var t := TrimRight(u.space, TrimLeft(u.space, s));
    TrimKeeps(NUL, t, BAD);
    TrimKeeps(NUL, TrimLeft(NUL, t), BAD);
    var i :| 0 <= i < |Trimmed(u, s)| && Trimmed(u, s)[i] == BAD;
    assert Accept(u, BAD).None?;
  }

  /** Runes that need no sanitizing come through, cut. */
  lemma PlainComesThrough(u: Classes, rs: seq<Rune>)
    requires Sane(u) && forall i :: 0 <= i < |rs| ==> Plain(u, rs[i])
    ensures Sanitized(u, AllUtf8(rs)) == Cut(AllUtf8(rs))
  {
    hide Decode, AllUtf8, Accepted, Trimmed;
    DecodeRunes(rs, []);
    assert AllUtf8(rs) + [] == AllUtf8(rs) && rs + [] == rs;
    assert Decode([]) == [] by { DecodeNothing(); }
    PlainIsAccepted(u, rs);
  }

  lemma DecodeNothing()
    ensures Decode([]) == []
  {
  }

  /** The number of leading runes that fit the limit. */
  lemma {:induction false} Fitting(rs: seq<Rune>) returns (k: nat)
    ensures k <= |rs| && |AllUtf8(rs[..k])| <= MAX_COMM_LEN && AllUtf8(rs[..k]) <= AllUtf8(rs)
    ensures k < |rs| ==> |AllUtf8(rs[..k])| + |Utf8(rs[k])| > MAX_COMM_LEN
    ensures k < |rs| ==> AllUtf8(rs[..k]) + Utf8(rs[k]) <= AllUtf8(rs)
    ensures k == |rs| ==> rs[..k] == rs
  {
    hide Utf8;
    if rs == [] {
      k := 0;
    } else {
      var front := rs[..|rs| - 1];
      k := Fitting(front);
      if k < |front| {
        assert front[..k] == rs[..k];
      } else if |AllUtf8(rs)| <= MAX_COMM_LEN {
        k := |rs|;
        assert rs[..k] == rs;
      } else {
        assert rs[..k] == front;
      }
    }
  }

  /** The cut falls inside a rune. */
  ghost predicate Splits(rs: seq<Rune>) {
    |AllUtf8(rs)| > MAX_COMM_LEN && forall k :: 0 <= k <= |rs| ==> |AllUtf8(rs[..k])| != MAX_COMM_LEN
  }

  /** Sanitizing is idempotent exactly where the 15-byte limit does not fall inside a rune; where it does,
      what is left of that rune gets the whole name rejected the second time. */
  lemma SanitizedTwice(u: Classes, text: seq<Byte>)
    requires Sane(u)
    ensures var s := Trimmed(u, Decode(text));
            && (Sanitized(u, Sanitized(u, text)) == Sanitized(u, text) <==> !(Acceptable(u, s) && Splits(Accepted(u, s))))
            && (Acceptable(u, s) && Splits(Accepted(u, s)) ==> Sanitized(u, Sanitized(u, text)) == [])
  {
    hide Decode, AllUtf8, Trimmed, Accepted, Splits;
    var s := Trimmed(u, Decode(text));
    if Acceptable(u, s) {
      AcceptedArePlain(u, s);
      var rs := Accepted(u, s);
      CutTwice(u, rs);
    } else {
      PlainComesThrough(u, []);
      assert AllUtf8([]) == [] by { NoRunes(); }
    }
  }

  /** Fourteen ASCII letters and an e with an acute accent. */
  const SPLIT: seq<Rune> := seq(14, _ => 0x61) + [0xE9]

  lemma SplitSplits()
    ensures |AllUtf8(SPLIT)| == 16 && Splits(SPLIT)
  {
    AsciiLength(SPLIT[..14]);
    assert SPLIT[..|SPLIT| - 1] == SPLIT[..14];
    forall k | 0 <= k <= |SPLIT| ensures |AllUtf8(SPLIT[..k])| != MAX_COMM_LEN {
      if k <= 14 {
        AsciiLength(SPLIT[..k]);
      } else {
        assert SPLIT[..k] == SPLIT;
      }
    }
  }

  /** It is such a name: accepted, cut inside its last rune, and rejected the second time. */
  lemma RejectedSecondTime(u: Classes)
    requires Sane(u) && u.letter(0x61) && u.letter(0xE9)
    ensures |Sanitized(u, AllUtf8(SPLIT))| == MAX_COMM_LEN
    ensures Sanitized(u, Sanitized(u, AllUtf8(SPLIT))) == []
  {
    hide AllUtf8, Splits, Sanitized;
    SplitSplits();
    PlainComesThrough(u, SPLIT);
    CutTwice(u, SPLIT);
  }

  lemma NoRunes()
    ensures AllUtf8([]) == []
  {
  }

  lemma CutTwice(u: Classes, rs: seq<Rune>)
    requires Sane(u) && forall i :: 0 <= i < |rs| ==> Plain(u, rs[i])
    ensures Sanitized(u, Cut(AllUtf8(rs))) == Cut(AllUtf8(rs)) <==> !Splits(rs)
    ensures Splits(rs) ==> Sanitized(u, Cut(AllUtf8(rs))) == []
  {
    hide Decode, AllUtf8, Sanitized, Utf8;
    var all := AllUtf8(rs);
    var k := Fitting(rs);
    var head := AllUtf8(rs[..k]);
    if |all| <= MAX_COMM_LEN {
      PlainComesThrough(u, rs);
    } else if |head| == MAX_COMM_LEN {
      assert Cut(all) == head;
      PlainComesThrough(u, rs[..k]);
    } else {
      var n := MAX_COMM_LEN - |head|;
      assert all[..MAX_COMM_LEN] == head + Utf8(rs[k])[..n];
      DecodeRunes(rs[..k], Utf8(rs[k])[..n]);
      DecodeCutShort(rs[k], n);
      BadIsRejected(u, Cut(all));
      NothingBetween(rs, k);
    }
  }

  /** Between two neighbouring rune boundaries there is no third. */
  lemma NothingBetween(rs: seq<Rune>, k: nat)
    requires k < |rs| && |AllUtf8(rs[..k])| < MAX_COMM_LEN < |AllUtf8(rs[..k])| + |Utf8(rs[k])|
    requires |AllUtf8(rs)| > MAX_COMM_LEN
    ensures Splits(rs)
  {
    hide Utf8;
    forall j | 0 <= j <= |rs| ensures |AllUtf8(rs[..j])| != MAX_COMM_LEN {
      if j <= k {
        LengthGrows(rs, j, k);
      } else {
        assert rs[..k + 1][..k] == rs[..k];
        LengthGrows(rs, k + 1, j);
      }
    }
  }

  lemma {:induction false} LengthGrows(rs: seq<Rune>, j: nat, k: nat)
    requires j <= k <= |rs|
    ensures |AllUtf8(rs[..j])| <= |AllUtf8(rs[..k])|
  {
    hide Utf8;
    if j < k {
      assert rs[..k][..k - 1] == rs[..k - 1];
      LengthGrows(rs, j, k - 1);
    }
  }

  /** Among runes of one byte the limit never falls inside one. */
  lemma AsciiNeverSplits(rs: seq<Rune>)
    requires forall i :: 0 <= i < |rs| ==> rs[i] < 0x80
    ensures !Splits(rs)
  {
    AsciiLength(rs);
    if |rs| >= MAX_COMM_LEN { AsciiLength(rs[..MAX_COMM_LEN]); }
  }

  lemma {:induction false} AsciiLength(rs: seq<Rune>)
    requires forall i :: 0 <= i < |rs| ==> rs[i] < 0x80
    ensures |AllUtf8(rs)| == |rs|
  {
    if rs != [] { AsciiLength(rs[..|rs| - 1]); }
  }
}
