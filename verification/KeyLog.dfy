/**
 The file that received keys are appended to: for every response the index in decimal and the key
 bit by bit. A parser that inverts the printer shows that the file determines what was written.
 */
module KeyLog {
  import opened Machine
  import opened Models
  import opened Bits

  // ----- decimal numbers ---------------------------------------------------------------------

  function Digit(d: nat): (c: char)
    requires d < 10
    ensures '0' <= c <= '9'
  {
    '0' + d as char
  }

  function Decimal(n: nat): (text: string)
    ensures |text| > 0 && forall i :: 0 <= i < |text| ==> '0' <= text[i] <= '9'
  {
    if n < 10 then [Digit(n)] else Decimal(n / 10) + [Digit(n % 10)]
  }

  function Pow10(k: nat): (p: nat)
    ensures p > 0
  {
    if k == 0 then 1 else 10 * Pow10(k - 1)
  }

  lemma {:induction false} DecimalLength(n: nat, k: nat)
    requires k > 0
    ensures |Decimal(n)| <= k <==> n < Pow10(k)
  {
    if k == 1 {
      assert Pow10(1) == 10;
    } else if n >= 10 {
      DecimalLength(n / 10, k - 1);
    }
  }

  method NumberOfDigits(n: uint32) returns (digits: nat)
    ensures digits == |Decimal(n)|
  {
    if n == 0 {
      return 1;
    }
    var left: nat := n;
    digits := 0;
    while left != 0
      invariant digits + (if left == 0 then 0 else |Decimal(left)|) == |Decimal(n)|
    {
      left := left / 10;
      digits := digits + 1;
    }
  }

  /** Character `k` from the end is the digit worth 10^k. */
  lemma {:induction false} DecimalDigit(n: nat, k: nat)
    requires k < |Decimal(n)|
    ensures (Decimal(n)[|Decimal(n)| - 1 - k] - '0') as nat == n / Pow10(k) % 10
  {
    if k > 0 {
      DecimalDigit(n / 10, k - 1);
      TenthThenDivide(n, Pow10(k - 1));
    } else {
      assert Pow10(0) == 1;
    }
  }

  lemma TenthThenDivide(n: nat, p: nat)
    requires p > 0
    ensures n / 10 / p == n / (10 * p)
  {
    var q, r := n / (10 * p), n % (10 * p);
    assert n == 10 * p * q + r;
    assert n / 10 == p * q + r / 10 && r / 10 < p;
    QuotientIs(p, q, r / 10);
  }

  /** `"%d"` takes the word for an `int`. */
  function AsInt(n: uint32): int {
    if n < 0x8000_0000 then n else n - WORD
  }

  function SignedDecimal(n: uint32): string {
    if AsInt(n) < 0 then "-" + Decimal(-AsInt(n)) else Decimal(AsInt(n))
  }

  /** It is the `int` with the same low 32 bits. */
  lemma AsIntIs(n: uint32, i: int)
    ensures i == AsInt(n) <==> -0x8000_0000 <= i < 0x8000_0000 && (n - i) % 0x1_0000_0000 == 0
  {
  }

  function ReadSigned(s: string): int {
    if s != "" && s[0] == '-' then -(ReadNumber(s[1..], 0).0 as int) else ReadNumber(s, 0).0
  }

  lemma {:induction false} SignedRoundTrip(n: uint32)
    ensures ReadSigned(SignedDecimal(n)) == AsInt(n)
    ensures SignedDecimal(n)[0] == '-' <==> AsInt(n) < 0
  {
    var m: nat := if AsInt(n) < 0 then -AsInt(n) else AsInt(n);
    assert Decimal(m) + "" == Decimal(m);
    ReadDecimal(m, "");
    if AsInt(n) < 0 {
      assert SignedDecimal(n)[1..] == Decimal(m);
    }
  }

  const INDEX_BUFFER := 11

  /** The number and its terminating NUL stay within the index buffer. */
  predicate IndexFits(n: uint32) {
    |SignedDecimal(n)| + 1 <= INDEX_BUFFER
  }

  /** They do for every non-negative `int` and for negative ones of up to nine digits. */
  lemma IndexFitsIff(n: uint32)
    ensures IndexFits(n) <==> n < 0x8000_0000 || WORD - n < 1_000_000_000
  {
    assert Pow10(3) == 1000;
    assert Pow10(6) == 1000 * Pow10(3);
    assert Pow10(9) == 1000 * Pow10(6);
    assert Pow10(10) == 10 * Pow10(9);
    if n < 0x8000_0000 {
      DecimalLength(n, 10);
    } else {
      DecimalLength(WORD - n, 9);
    }
  }

  lemma TenDigits(n: uint32)
    ensures |Decimal(n)| <= 10
  {
    assert Pow10(5) == 100_000;
    assert Pow10(10) == 100_000 * Pow10(5);
    DecimalLength(n, 10);
  }

  /** What is written for an index: as many characters of the buffer as the unsigned number has digits. */
  function IndexText(n: uint32, junk: string): string
    requires IndexFits(n) && |junk| == INDEX_BUFFER
  {
    var text := SignedDecimal(n) + [0 as char];
    var buffer := text + junk[|text|..];
    TenDigits(n);
    buffer[..|Decimal(n)|]
  }

  /** The index is written as itself exactly when it is a non-negative `int`. */
  lemma IndexTextIff(n: uint32, junk: string)
    requires IndexFits(n) && |junk| == INDEX_BUFFER
    ensures IndexText(n, junk) == Decimal(n) <==> n < 0x8000_0000
  {
    var text := SignedDecimal(n) + [0 as char];
    TenDigits(n);
    FrontOf(text, junk[|text|..], |Decimal(n)|);
    if n < 0x8000_0000 {
      assert text[..|Decimal(n)|] == Decimal(n);
    } else {
      assert text[0] == '-';
    }
  }

  /** Of a negative `int`, the sign and all digits are written, and then what the buffer holds behind them. */
  lemma NegativeIndexText(n: uint32, junk: string)
    requires IndexFits(n) && |junk| == INDEX_BUFFER && n >= 0x8000_0000
    ensures SignedDecimal(n) <= IndexText(n, junk) && |IndexText(n, junk)| == 10
  {
    TenDigits(n);
    assert Pow10(3) == 1000;
    assert Pow10(6) == 1000 * Pow10(3);
    assert Pow10(9) == 1000 * Pow10(6);
    DecimalLength(n, 9);
  }

  lemma FrontOf(text: string, tail: string, k: nat)
    requires 0 < k <= |text| + |tail| && text != ""
    ensures (text + tail)[..k][0] == text[0]
    ensures k <= |text| ==> (text + tail)[..k] == text[..k]
  {
  }

  // ----- keys in binary ----------------------------------------------------------------------

  function BitChar(b: bool): char {
    if b then '1' else '0'
  }

  /** The low `w` bits, most significant first. */
  function Binary(n: nat, w: nat): (text: string)
    ensures |text| == w
  {
    if w == 0 then "" else Binary(n / 2, w - 1) + [BitChar(n % 2 == 1)]
  }

  lemma {:induction false} BinaryBit(n: nat, w: nat, i: nat)
    requires i < w
    ensures Binary(n, w)[w - 1 - i] == BitChar(Bit(n, i))
  {
    if i > 0 {
      BinaryBit(n / 2, w - 1, i - 1);
    }
  }

  function KeyText(key: bytes): (text: string)
    ensures |text| == 8 * |key|
  {
    if key == [] then "" else Binary(key[0], 8) + KeyText(key[1..])
  }

  /** Character 8 i + j of the text is the bit of byte i worth 2^(7 - j). */
  lemma {:induction false} KeyTextBit(key: bytes, i: nat, j: nat)
    requires i < |key| && j < 8
    ensures KeyText(key)[8 * i + j] == if Bit(key[i], 7 - j) then '1' else '0'
  {
    if i == 0 {
      BinaryBit(key[0], 8, 7 - j);
    } else {
      KeyTextBit(key[1..], i - 1, j);
    }
  }

  lemma {:induction false} KeyTextAppend(key: bytes, b: byte)
    ensures KeyText(key + [b]) == KeyText(key) + Binary(b, 8)
  {
    if key == [] {
      assert KeyText([]) == "";
      assert KeyText([b]) == Binary(b, 8) + KeyText([]);
    } else {
      assert (key + [b])[1..] == key[1..] + [b];
      KeyTextAppend(key[1..], b);
    }
  }

  lemma {:induction false} AndZero(b: nat)
    ensures Bitwise(And, b, 0) == 0
  {
    if b > 0 { AndZero(b / 2); }
  }

  lemma {:induction false} AndPow2(b: nat, k: nat)
    ensures Bitwise(And, b, Pow2(k)) != 0 <==> Bit(b, k)
  {
    if k == 0 {
      AndZero(b / 2);
    } else {
      assert Pow2(k) / 2 == Pow2(k - 1);
      AndPow2(b / 2, k - 1);
    }
  }

  // ----- the file ----------------------------------------------------------------------------

  datatype LogEntry = LogEntry(index: nat, key: bytes)

  function EntryText(e: LogEntry): string {
    "Index: " + Decimal(e.index) + "\nKey: " + KeyText(e.key) + "\n\n"
  }

  function Log(entries: seq<LogEntry>): string {
    if entries == [] then "" else EntryText(entries[0]) + Log(entries[1..])
  }

  lemma {:induction false} LogAppend(entries: seq<LogEntry>, e: LogEntry)
    ensures Log(entries + [e]) == Log(entries) + EntryText(e)
  {
    if entries == [] {
      assert Log([]) == "" && Log([e]) == EntryText(e) + Log([]);
    } else {
      assert (entries + [e])[1..] == entries[1..] + [e];
      LogAppend(entries[1..], e);
    }
  }

  /** A file opened for appending. */
  class LogFile {
    var text: string

    method Puts(s: string)
      modifies this
      ensures text == old(text) + s
    {
      text := text + s;
    }
  }

  method Sprintf(buf: array<char>, n: uint32)
    requires buf.Length == INDEX_BUFFER && IndexFits(n)
    modifies buf
    ensures var text := SignedDecimal(n) + [0 as char];
      buf[..] == text + old(buf[..])[|text|..]
  {
    var text := SignedDecimal(n) + [0 as char];
    forall i | 0 <= i < |text| {
      buf[i] := text[i];
    }
  }

  method WriteIndex(file: LogFile, index: uint32) returns (ghost junk: string)
    requires IndexFits(index)
    modifies file
    ensures |junk| == INDEX_BUFFER && file.text == old(file.text) + IndexText(index, junk)
  {
    var sindex := new char[INDEX_BUFFER];
    junk := sindex[..];
    Sprintf(sindex, index);
    var digits := NumberOfDigits(index);
    TenDigits(index);
    file.Puts(sindex[..digits]);
  }

  method WriteByte(file: LogFile, b: byte)
    modifies file
    ensures file.text == old(file.text) + Binary(b, 8)
  {
    ghost var all := Binary(b, 8);
    var bit := 7;
    while bit >= 0
      invariant -1 <= bit <= 7
      invariant file.text == old(file.text) + all[..7 - bit]
    {
      AndPow2(b, bit);
      BinaryBit(b, 8, bit);
      file.Puts(if Bitwise(And, b, Pow2(bit)) != 0 then "1" else "0");
      bit := bit - 1;
    }
    assert all[..8] == all;
  }

  method WriteKeyBits(file: LogFile, key: Blob)
    modifies file
    ensures file.text == old(file.text) + KeyText(key)
  {
    var i := 0;
    while i < |key|
      invariant 0 <= i <= |key|
      invariant file.text == old(file.text) + KeyText(key[..i])
    {
      WriteByte(file, key[i]);
      KeyTextAppend(key[..i], key[i]);
      i := i + 1;
      assert key[..i] == key[..i - 1] + [key[i - 1]];
    }
    assert key[..|key|] == key;
  }

  lemma SameMiddle(front: string, a: string, b: string, back: string)
    ensures front + a + back == front + b + back <==> a == b
  {
    if front + a + back == front + b + back {
      assert |a| == |b|;
      assert a == (front + a + back)[|front|..|front| + |a|];
      assert b == (front + b + back)[|front|..|front| + |b|];
    }
  }

  lemma EntryGrouping(log: string, index: string, key: string)
    ensures log + ("Index: " + index + "\nKey: " + key + "\n\n") ==
      log + "Index: " + index + ("\nKey: " + key + "\n\n")
    ensures log + "Index: " + index + "\nKey: " + key + "\n\n" ==
      log + "Index: " + index + ("\nKey: " + key + "\n\n")
  {
  }

  /** `write_key_to_file_bit_format`: a log of entries becomes the log with one more of them. */
  method WriteKey(file: LogFile, response: GetKeyResponse, ghost entries: seq<LogEntry>) returns (ghost junk: string)
    requires IndexFits(response.index) && file.text == Log(entries)
    modifies file
    ensures |junk| == INDEX_BUFFER
    ensures file.text ==
      old(file.text) + "Index: " + IndexText(response.index, junk) + "\nKey: " + KeyText(response.key) + "\n\n"
    ensures file.text == Log(entries + [LogEntry(response.index, response.key)]) <==> response.index < 0x8000_0000
  {
    file.Puts("Index: ");
    junk := WriteIndex(file, response.index);
    file.Puts("\nKey: ");
    WriteKeyBits(file, response.key);
    file.Puts("\n\n");
    LogAppend(entries, LogEntry(response.index, response.key));
    IndexTextIff(response.index, junk);
    ghost var back := "\nKey: " + KeyText(response.key) + "\n\n";
    SameMiddle(Log(entries) + "Index: ", IndexText(response.index, junk), Decimal(response.index), back);
    EntryGrouping(Log(entries), IndexText(response.index, junk), KeyText(response.key));
    EntryGrouping(Log(entries), Decimal(response.index), KeyText(response.key));
  }

  // ----- reading the file --------------------------------------------------------------------

  predicate IsDigit(c: char) {
    '0' <= c <= '9'
  }

  /** The number that continues `n` with the digits at the front of `s`, and what follows them. */
  function ReadNumber(s: string, n: nat): (r: (nat, string))
    ensures |r.1| <= |s|
  {
    if s == "" || !IsDigit(s[0]) then (n, s) else ReadNumber(s[1..], 10 * n + (s[0] - '0') as nat)
  }

  lemma {:induction false} ReadDecimal(n: nat, rest: string)
    ensures ReadNumber(Decimal(n) + rest, 0) == ReadNumber(rest, n)
  {
    var c := Digit(n % 10);
    assert (c - '0') as nat == n % 10;
    assert ([c] + rest)[1..] == rest;
    if n >= 10 {
      assert Decimal(n) + rest == Decimal(n / 10) + ([c] + rest);
      ReadDecimal(n / 10, [c] + rest);
    }
  }

  predicate IsBit(c: char) {
    c == '0' || c == '1'
  }

  function BitsValue(s: string): nat {
    if s == "" then 0 else 2 * BitsValue(s[..|s| - 1]) + if s[|s| - 1] == '1' then 1 else 0
  }

  lemma {:induction false} BitsValueOfBinary(n: nat, w: nat)
    requires n < Pow2(w)
    ensures BitsValue(Binary(n, w)) == n
    ensures forall i :: 0 <= i < w ==> IsBit(Binary(n, w)[i])
  {
    if w > 0 {
      assert Binary(n, w)[..w - 1] == Binary(n / 2, w - 1);
      BitsValueOfBinary(n / 2, w - 1);
    }
  }

  lemma {:induction false} BitsValueBound(s: string)
    ensures BitsValue(s) < Pow2(|s|)
  {
    if s != "" { BitsValueBound(s[..|s| - 1]); }
  }

  /** The bytes whose bits stand at the front of `s`, and what follows them. */
  function ReadKey(s: string): (r: (bytes, string))
    ensures |r.1| <= |s|
  {
    if |s| >= 8 && forall i :: 0 <= i < 8 ==> IsBit(s[i]) then
      BitsValueBound(s[..8]);
      assert Pow2(8) == 256;
      var (key, rest) := ReadKey(s[8..]);
      ([BitsValue(s[..8])] + key, rest)
    else ([], s)
  }

  lemma ReadByte(b: byte, s: string)
    ensures ReadKey(Binary(b, 8) + s) == ([b] + ReadKey(s).0, ReadKey(s).1)
  {
    var text := Binary(b, 8);
    assert Pow2(8) == 256;
    BitsValueOfBinary(b, 8);
    assert (text + s)[..8] == text && (text + s)[8..] == s;
    assert forall i :: 0 <= i < 8 ==> (text + s)[i] == text[i];
  }

  lemma KeyTextGrouping(key: bytes, rest: string)
    requires key != []
    ensures KeyText(key) + rest == Binary(key[0], 8) + (KeyText(key[1..]) + rest)
  {
  }

  lemma ReadNoKey(rest: string)
    requires rest != "" && !IsBit(rest[0])
    ensures ReadKey(KeyText([]) + rest) == ([], rest)
  {
    assert KeyText([]) + rest == rest;
  }

  lemma {:induction false} ReadKeyText(key: bytes, rest: string)
    requires rest != "" && !IsBit(rest[0])
    ensures ReadKey(KeyText(key) + rest) == (key, rest)
  {
    if key == [] {
      ReadNoKey(rest);
    } else {
      ReadKeyText(key[1..], rest);
      KeyTextGrouping(key, rest);
      ReadByte(key[0], KeyText(key[1..]) + rest);
      assert key == [key[0]] + key[1..];
    }
  }

  /** What follows `word` at the front of `s`. */
  function Skip(word: string, s: string): (rest: Option<string>)
    ensures rest.Some? ==> s == word + rest.value
  {
    if word <= s then Some(s[|word|..]) else None
  }

  lemma SkipWord(word: string, rest: string)
    ensures Skip(word, word + rest) == Some(rest)
  {
  }

  function ReadEntry(s: string): (r: Option<(LogEntry, string)>)
    ensures r.Some? ==> |r.value.1| < |s|
  {
    match Skip("Index: ", s)
    case None => None
    case Some(s1) =>
      var (index, s2) := ReadNumber(s1, 0);
      match Skip("\nKey: ", s2)
      case None => None
      case Some(s3) =>
        var (key, s4) := ReadKey(s3);
        match Skip("\n\n", s4)
        case None => None
        case Some(rest) => Some((LogEntry(index, key), rest))
  }

  lemma EntryNested(index: string, key: string, rest: string)
    ensures ("Index: " + index + "\nKey: " + key + "\n\n") + rest ==
      "Index: " + (index + ("\nKey: " + (key + ("\n\n" + rest))))
  {
  }

  lemma EntryRoundTrip(e: LogEntry, rest: string)
    ensures ReadEntry(EntryText(e) + rest) == Some((e, rest))
  {
    var s4 := "\n\n" + rest;
    var s3 := KeyText(e.key) + s4;
    var s2 := "\nKey: " + s3;
    EntryNested(Decimal(e.index), KeyText(e.key), rest);
    SkipWord("Index: ", Decimal(e.index) + s2);
    ReadDecimal(e.index, s2);
    assert s2[0] == '\n' && s4[0] == '\n';
    SkipWord("\nKey: ", s3);
    ReadKeyText(e.key, s4);
    SkipWord("\n\n", rest);
  }

  function ReadLog(s: string): Option<seq<LogEntry>>
    decreases |s|
  {
    if s == "" then Some([])
    else
      match ReadEntry(s)
      case None => None
      case Some((e, rest)) =>
        match ReadLog(rest)
        case None => None
        case Some(entries) => Some([e] + entries)
  }

  lemma {:induction false} LogRoundTrip(entries: seq<LogEntry>)
    ensures ReadLog(Log(entries)) == Some(entries)
  {
    if entries != [] {
      EntryRoundTrip(entries[0], Log(entries[1..]));
      LogRoundTrip(entries[1..]);
      assert entries == [entries[0]] + entries[1..];
    }
  }

  /** The file determines the indices and keys that were written to it. */
  lemma LogIsDecodable(a: seq<LogEntry>, b: seq<LogEntry>)
    ensures Log(a) == Log(b) <==> a == b
  {
    LogRoundTrip(a);
    LogRoundTrip(b);
  }
}
