/** Unpadded base64url as encoding/base64.RawURLEncoding reads and writes it. */
module Base64Url {
  import opened Bytes
  import opened Wrappers

  type Digit = d: int | 0 <= d < 64 witness 0

  function Symbol(n: Digit): (c: char)
    ensures Value(c) == Some(n)
  {
    if n < 26 then 'A' + n as char
    else if n < 52 then 'a' + (n - 26) as char
    else if n < 62 then '0' + (n - 52) as char
    else if n == 62 then '-' else '_'
  }

  function Value(c: char): (r: Option<Digit>)
    ensures r.Some? ==> c != '\r' && c != '\n'
  {
    if 'A' <= c <= 'Z' then Some((c - 'A') as int)
    else if 'a' <= c <= 'z' then Some((c - 'a') as int + 26)
    else if '0' <= c <= '9' then Some((c - '0') as int + 52)
    else if c == '-' then Some(62)
    else if c == '_' then Some(63)
    else None
  }

  // The symbols of one, two or three bytes.
  function One(x: Byte): string {
    [Symbol(x / 4), Symbol(x % 4 * 16)]
  }

  function Two(x: Byte, y: Byte): string {
    [Symbol(x / 4), Symbol(x % 4 * 16 + y / 16), Symbol(y % 16 * 4)]
  }

  function Three(x: Byte, y: Byte, z: Byte): string {
    [Symbol(x / 4), Symbol(x % 4 * 16 + y / 16), Symbol(y % 16 * 4 + z / 64), Symbol(z % 64)]
  }

  function Encode(bytes: seq<Byte>): string {
    if |bytes| == 0 then ""
    else if |bytes| == 1 then One(bytes[0])
    else if |bytes| == 2 then Two(bytes[0], bytes[1])
    else Three(bytes[0], bytes[1], bytes[2]) + Encode(bytes[3..])
  }

  predicate IsBreak(c: char) {
    c == '\r' || c == '\n'
  }

  // Line breaks are ignored wherever they stand.
  function StripBreaks(s: string): string {
    if s == "" then ""
    else if IsBreak(s[0]) then StripBreaks(s[1..])
    else [s[0]] + StripBreaks(s[1..])
  }

  // The bytes that four digits make up.
  function High(a: Digit, b: Digit): Byte {
    a * 4 + b / 16
  }

  function Middle(b: Digit, c: Digit): Byte {
    b % 16 * 16 + c / 4
  }

  function Low(c: Digit, d: Digit): Byte {
    c % 4 * 64 + d
  }

  // The bytes of a text without breaks. Left-over low bits of a final short group are dropped unchecked.
  function DecodeClean(s: string): Option<seq<Byte>> {
    if |s| == 0 then Some([])
    else if |s| == 1 then None
    else
      var a, b := Value(s[0]), Value(s[1]);
      if a.None? || b.None? then None
      else
        var first := High(a.value, b.value);
        if |s| == 2 then Some([first])
        else
          var c := Value(s[2]);
          if c.None? then None
          else
            var second := Middle(b.value, c.value);
            if |s| == 3 then Some([first, second])
            else
              var d, rest := Value(s[3]), DecodeClean(s[4..]);
              if d.None? || rest.None? then None
              else Some([first, second, Low(c.value, d.value)] + rest.value)
  }

  function Decode(s: string): Option<seq<Byte>> {
    DecodeClean(StripBreaks(s))
  }

  predicate Clean(s: string) {
    forall i | 0 <= i < |s| :: Value(s[i]).Some?
  }

  lemma {:induction false} CleanHasNoBreaks(s: string)
    requires Clean(s)
    ensures StripBreaks(s) == s
  {
    if s == "" {
    } else {
      assert Value(s[0]).Some?;
      CleanHasNoBreaks(s[1..]);
    }
  }

  lemma {:induction false} EncodeIsClean(bytes: seq<Byte>)
    ensures Clean(Encode(bytes))
  {
    if |bytes| >= 3 { EncodeIsClean(bytes[3..]); }
  }

  // Six-bit digits of three bytes, put together again.
  lemma Group(x: Byte, y: Byte, z: Byte)
    ensures High(x / 4, x % 4 * 16 + y / 16) == x
    ensures Middle(x % 4 * 16 + y / 16, y % 16 * 4 + z / 64) == y
    ensures Low(y % 16 * 4 + z / 64, z % 64) == z
  {
  }

  lemma ThreeSymbols(x: Byte, y: Byte, z: Byte)
    ensures var t := Three(x, y, z);
      && |t| == 4 && Value(t[0]) == Some(x / 4) && Value(t[1]) == Some(x % 4 * 16 + y / 16)
      && Value(t[2]) == Some(y % 16 * 4 + z / 64) && Value(t[3]) == Some(z % 64)
  {
    hide Symbol, Value;
  }

  lemma DecodeFour(t: string, s: string, a: Digit, b: Digit, c: Digit, d: Digit)
    requires |t| == 4 && Value(t[0]) == Some(a) && Value(t[1]) == Some(b) && Value(t[2]) == Some(c) && Value(t[3]) == Some(d)
    requires DecodeClean(s).Some?
    ensures DecodeClean(t + s) == Some([High(a, b), Middle(b, c), Low(c, d)] + DecodeClean(s).value)
  {
    hide Value, High, Middle, Low;
    assert (t + s)[4..] == s;
  }

  lemma DecodeThree(x: Byte, y: Byte, z: Byte, s: string)
    requires DecodeClean(s).Some?
    ensures DecodeClean(Three(x, y, z) + s) == Some([x, y, z] + DecodeClean(s).value)
  {
    hide *;
    ThreeSymbols(x, y, z);
    Group(x, y, z);
    DecodeFour(Three(x, y, z), s, x / 4, x % 4 * 16 + y / 16, y % 16 * 4 + z / 64, z % 64);
  }

  lemma TailSymbols(x: Byte, y: Byte)
    ensures var t := One(x); |t| == 2 && Value(t[0]) == Some(x / 4) && Value(t[1]) == Some(x % 4 * 16)
    ensures var t := Two(x, y);
      && |t| == 3 && Value(t[0]) == Some(x / 4) && Value(t[1]) == Some(x % 4 * 16 + y / 16)
      && Value(t[2]) == Some(y % 16 * 4)
  {
    hide Symbol, Value;
  }

  lemma DecodeShort(t: string, a: Digit, b: Digit, c: Digit)
    requires 2 <= |t| <= 3 && Value(t[0]) == Some(a) && Value(t[1]) == Some(b) && (|t| == 3 ==> Value(t[2]) == Some(c))
    ensures DecodeClean(t) == Some(if |t| == 2 then [High(a, b)] else [High(a, b), Middle(b, c)])
  {
    hide Value, High, Middle, Low;
  }

  lemma DecodeTail(x: Byte, y: Byte)
    ensures DecodeClean(One(x)) == Some([x])
    ensures DecodeClean(Two(x, y)) == Some([x, y])
  {
    hide *;
    TailSymbols(x, y);
    Group(x, 0, 0);
    Group(x, y, 0);
    DecodeShort(One(x), x / 4, x % 4 * 16, 0);
    DecodeShort(Two(x, y), x / 4, x % 4 * 16 + y / 16, y % 16 * 4);
  }

  lemma {:induction false} DecodeCleanEncode(bytes: seq<Byte>)
    ensures DecodeClean(Encode(bytes)) == Some(bytes)
  {
    hide DecodeClean, One, Two, Three;
    if |bytes| == 0 {
      DecodeNothing();
    } else if |bytes| == 1 {
      DecodeTail(bytes[0], 0);
      assert bytes == [bytes[0]];
    } else if |bytes| == 2 {
      DecodeTail(bytes[0], bytes[1]);
      assert bytes == [bytes[0], bytes[1]];
    } else {
      DecodeCleanEncode(bytes[3..]);
      DecodeThree(bytes[0], bytes[1], bytes[2], Encode(bytes[3..]));
      assert bytes == [bytes[0], bytes[1], bytes[2]] + bytes[3..];
    }
  }

  lemma DecodeNothing()
    ensures DecodeClean("") == Some([])
  {
  }

  /** Decoding undoes encoding, for every byte string. */
  lemma RoundTrip(bytes: seq<Byte>)
    ensures Decode(Encode(bytes)) == Some(bytes)
  {
    EncodeIsClean(bytes);
    CleanHasNoBreaks(Encode(bytes));
    DecodeCleanEncode(bytes);
  }

  // The table of section 5 of RFC 4648.
  const UPPER := "ABCDEFGHIJKLMNOPQRSTUVWXYZ"
  const LOWER := "abcdefghijklmnopqrstuvwxyz"
  const DIGITS := "0123456789"
  const ALPHABET: string := UPPER + LOWER + DIGITS + "-_"

  lemma UpperOrder(n: Digit)
    requires n < 26
    ensures |UPPER| == 26 && UPPER[n] == 'A' + n as char
  {
  }

  lemma LowerOrder(n: Digit)
    requires n < 26
    ensures |LOWER| == 26 && LOWER[n] == 'a' + n as char
  {
  }

  lemma DigitOrder(n: Digit)
    requires n < 10
    ensures |DIGITS| == 10 && DIGITS[n] == '0' + n as char
  {
  }

  // The symbol of a digit is its place in the table.
  lemma AlphabetOrder(n: Digit)
    ensures |ALPHABET| == 64 && ALPHABET[n] == Symbol(n)
  {
    UpperOrder(if n < 26 then n else 0);
    LowerOrder(if 26 <= n < 52 then n - 26 else 0);
    DigitOrder(if 52 <= n < 62 then n - 52 else 0);
  }

  // The number a text denotes in base 64, and the one bytes denote in base 256, appended to the digits of acc.
  function Read64(acc: nat, s: string): nat
    decreases |s|
  {
    if s == "" then acc else Read64(acc * 64 + (if Value(s[0]).Some? then Value(s[0]).value else 0), s[1..])
  }

  function Read256(acc: nat, bytes: seq<Byte>): nat
    decreases |bytes|
  {
    if bytes == [] then acc else Read256(acc * 256 + bytes[0], bytes[1..])
  }

  // The zero bits that fill up the last symbol.
  function Fill(n: nat): nat {
    if n % 3 == 0 then 1 else if n % 3 == 1 then 16 else 4
  }

  lemma ReadThree(acc: nat, x: Byte, y: Byte, z: Byte, s: string)
    ensures Read64(acc, Three(x, y, z) + s) == Read64(((acc * 256 + x) * 256 + y) * 256 + z, s)
  {
    hide Value, Three;
    ThreeSymbols(x, y, z);
    var t := Three(x, y, z);
    assert t + s == [t[0]] + ([t[1]] + ([t[2]] + ([t[3]] + s)));
    ReadOne(acc, t[0], x / 4, [t[1]] + ([t[2]] + ([t[3]] + s)));
    var a1 := acc * 64 + x / 4;
    ReadOne(a1, t[1], x % 4 * 16 + y / 16, [t[2]] + ([t[3]] + s));
    var a2 := a1 * 64 + (x % 4 * 16 + y / 16);
    ReadOne(a2, t[2], y % 16 * 4 + z / 64, [t[3]] + s);
    var a3 := a2 * 64 + (y % 16 * 4 + z / 64);
    ReadOne(a3, t[3], z % 64, s);
    Regroup(acc, x, y, z);
  }

  lemma ReadOne(acc: nat, c: char, d: Digit, s: string)
    requires Value(c) == Some(d)
    ensures Read64(acc, [c] + s) == Read64(acc * 64 + d, s)
  {
    hide Value;
    assert ([c] + s)[1..] == s;
  }

  lemma Regroup(acc: nat, x: Byte, y: Byte, z: Byte)
    ensures (((acc * 64 + x / 4) * 64 + (x % 4 * 16 + y / 16)) * 64 + (y % 16 * 4 + z / 64)) * 64 + z % 64
         == ((acc * 256 + x) * 256 + y) * 256 + z
  {
  }

  lemma ReadTail(acc: nat, x: Byte, y: Byte)
    ensures Read64(acc, One(x)) == (acc * 256 + x) * 16
    ensures Read64(acc, Two(x, y)) == ((acc * 256 + x) * 256 + y) * 4
  {
    hide Value, One, Two;
    TailSymbols(x, y);
    var t, u := One(x), Two(x, y);
    assert t == [t[0]] + ([t[1]] + "") && u == [u[0]] + ([u[1]] + ([u[2]] + ""));
    ReadOne(acc, t[0], x / 4, [t[1]] + "");
    ReadOne(acc * 64 + x / 4, t[1], x % 4 * 16, "");
    ReadOne(acc, u[0], x / 4, [u[1]] + ([u[2]] + ""));
    ReadOne(acc * 64 + x / 4, u[1], x % 4 * 16 + y / 16, [u[2]] + "");
    ReadOne((acc * 64 + x / 4) * 64 + (x % 4 * 16 + y / 16), u[2], y % 16 * 4, "");
  }

  /** The text denotes, in base 64 over the alphabet, the number the bytes denote in base 256, shifted by the bits that
      fill up its last symbol. */
  lemma {:induction false} EncodeDenotes(acc: nat, bytes: seq<Byte>)
    ensures Read64(acc, Encode(bytes)) == Read256(acc, bytes) * Fill(|bytes|)
    decreases |bytes|
  {
    hide Read64, One, Two, Three;
    if |bytes| == 0 {
      ReadNothing(acc);
    } else if |bytes| == 1 {
      ReadTail(acc, bytes[0], 0);
      assert bytes[1..] == [];
    } else if |bytes| == 2 {
      ReadTail(acc, bytes[0], bytes[1]);
      ReadTwoBytes(acc, bytes);
    } else {
      var rest := bytes[3..];
      var acc' := ((acc * 256 + bytes[0]) * 256 + bytes[1]) * 256 + bytes[2];
      ReadThree(acc, bytes[0], bytes[1], bytes[2], Encode(rest));
      EncodeDenotes(acc', rest);
      ReadThreeBytes(acc, bytes);
      assert (|bytes| - 3) % 3 == |bytes| % 3;
    }
  }

  lemma ReadTwoBytes(acc: nat, bytes: seq<Byte>)
    requires |bytes| == 2
    ensures Read256(acc, bytes) == (acc * 256 + bytes[0]) * 256 + bytes[1]
  {
    var one := bytes[1..];
    assert one[0] == bytes[1] && one[1..] == [];
    assert Read256(acc * 256 + bytes[0], one) == Read256((acc * 256 + bytes[0]) * 256 + bytes[1], []);
  }

  lemma ReadThreeBytes(acc: nat, bytes: seq<Byte>)
    requires |bytes| >= 3
    ensures Read256(acc, bytes) == Read256(((acc * 256 + bytes[0]) * 256 + bytes[1]) * 256 + bytes[2], bytes[3..])
  {
    var one, two := bytes[1..], bytes[1..][1..];
    assert one[0] == bytes[1] && two[0] == bytes[2] && two[1..] == bytes[3..];
    assert Read256(acc, bytes) == Read256(acc * 256 + bytes[0], one);
    assert Read256(acc * 256 + bytes[0], one) == Read256((acc * 256 + bytes[0]) * 256 + bytes[1], two);
  }

  lemma {:induction false} ReadSnoc(acc: nat, bytes: seq<Byte>, x: Byte)
    ensures Read256(acc, bytes + [x]) == Read256(acc, bytes) * 256 + x
    decreases |bytes|
  {
    if bytes == [] {
      assert (bytes + [x])[1..] == [];
    } else {
      assert (bytes + [x])[1..] == bytes[1..] + [x];
      ReadSnoc(acc * 256 + bytes[0], bytes[1..], x);
    }
  }

  lemma {:induction false} ReadIsBigEndian(bytes: seq<Byte>)
    ensures Read256(0, bytes) == BigEndian(bytes)
  {
    if bytes == [] {
    } else {
      var front, x := bytes[..|bytes| - 1], bytes[|bytes| - 1];
      ReadIsBigEndian(front);
      ReadSnoc(0, front, x);
      assert bytes == front + [x];
    }
  }

  lemma ReadNothing(acc: nat)
    ensures Read64(acc, "") == acc
  {
  }

  lemma DecodeStep(s: string)
    requires |s| >= 4
    ensures DecodeClean(s).Some? <==>
      Value(s[0]).Some? && Value(s[1]).Some? && Value(s[2]).Some? && Value(s[3]).Some? && DecodeClean(s[4..]).Some?
  {
    hide Value, High, Middle, Low;
  }

  lemma CleanStep(s: string)
    requires |s| >= 4
    ensures Clean(s) <==>
      Value(s[0]).Some? && Value(s[1]).Some? && Value(s[2]).Some? && Value(s[3]).Some? && Clean(s[4..])
  {
    hide Value;
    assert forall i | 4 <= i < |s| :: s[i] == s[4..][i - 4];
  }

  lemma DecodeShortIff(s: string)
    requires |s| < 4
    ensures DecodeClean(s).Some? <==> Clean(s) && |s| != 1
  {
    hide Value, High, Middle, Low;
  }

  /** A text without line breaks is accepted exactly when all of it is in the alphabet and no symbol is left over. */
  lemma {:induction false} DecodeAcceptsIff(s: string)
    ensures DecodeClean(s).Some? <==> Clean(s) && |s| % 4 != 1
  {
    hide DecodeClean, Clean, Value;
    if |s| < 4 {
      DecodeShortIff(s);
    } else {
      DecodeAcceptsIff(s[4..]);
      DecodeStep(s);
      CleanStep(s);
    }
  }

  /** A carriage return or line feed changes nothing, wherever it stands. */
  lemma {:induction false} BreaksAreIgnored(a: string, c: char, b: string)
    requires c == '\r' || c == '\n'
    ensures Decode(a + [c] + b) == Decode(a + b)
  {
    hide DecodeClean;
    StripSkips(a, c, b);
  }

  lemma StripCons(c: char, s: string)
    ensures StripBreaks([c] + s) == if IsBreak(c) then StripBreaks(s) else [c] + StripBreaks(s)
  {
    assert ([c] + s)[1..] == s;
  }

  lemma {:induction false} StripSkips(a: string, c: char, b: string)
    requires IsBreak(c)
    ensures StripBreaks(a + [c] + b) == StripBreaks(a + b)
  {
    hide StripBreaks, IsBreak;
    if a == "" {
      assert a + [c] + b == [c] + b && a + b == b;
      StripCons(c, b);
    } else {
      StripSkips(a[1..], c, b);
      assert a + [c] + b == [a[0]] + (a[1..] + [c] + b) && a + b == [a[0]] + (a[1..] + b);
      StripCons(a[0], a[1..] + [c] + b);
      StripCons(a[0], a[1..] + b);
    }
  }
}
