/** Integer printing into a bounded buffer (log/LogStream.cpp, log/LogStream.h). */
module LogStreams {
  import opened Arith
  import opened Seqs

  const DIGITS := "9876543210123456789"
  const ZERO: nat := 9   // where '0' stands in DIGITS
  const DIGITS_HEX := "0123456789ABCDEF"

  // ---------- what a numeral is ----------

  /** The digits of `n`, least significant first. */
  function Digits(n: nat, base: nat): (ds: seq<nat>)
    requires base >= 2
    ensures |ds| >= 1
    decreases n
  {
    if n < base then [n] else SmallerQuotient(n, base); [n % base] + Digits(n / base, base)
  }

  lemma SmallerQuotient(n: nat, base: nat)
    requires base >= 2 && n >= base
    ensures n / base < n
  {
    if n / base >= n {
      MulMonotone(n, n / base, base);
      MulMonotone(2, base, n);
      assert false;
    }
  }

  /** Positional value, most significant character first. */
  function Parse(s: string, base: nat): int {
    if s == [] then 0 else Parse(s[..|s| - 1], base) * base + CharValue(s[|s| - 1])
  }

  function CharValue(c: char): int {
    if c <= '9' then c as int - '0' as int else c as int - 'A' as int + 10
  }

  function ParseSigned(s: string): int {
    if s != [] && s[0] == '-' then -Parse(s[1..], 10) else Parse(s, 10)
  }

  function HexChar(d: nat): char
    requires d < 16
  {
    DIGITS_HEX[d]
  }

  function Chars(ds: seq<nat>): string
    requires forall i :: 0 <= i < |ds| ==> ds[i] < 16
  {
    seq(|ds|, i requires 0 <= i < |ds| => HexChar(ds[i]))
  }

  function Reverse<T>(s: seq<T>): seq<T> {
    seq(|s|, i requires 0 <= i < |s| => s[|s| - 1 - i])
  }

  lemma {:induction false} DigitsSmall(n: nat, base: nat)
    requires 2 <= base <= 16
    ensures forall i :: 0 <= i < |Digits(n, base)| ==> Digits(n, base)[i] < base
    ensures n > 0 ==> Digits(n, base)[|Digits(n, base)| - 1] > 0
    ensures n == 0 ==> Digits(n, base) == [0]
    decreases n
  {
    if n >= base {
      SmallerQuotient(n, base);
      DivAtLeast(n, base, 1);
      DigitsSmall(n / base, base);
    }
  }

  /** The text of `n`: its digits, most significant first. */
  function Numeral(n: nat, base: nat): string
    requires 2 <= base <= 16
  {
    DigitsSmall(n, base);
    Reverse(Chars(Digits(n, base)))
  }

  function Decimal(value: int): string {
    if value < 0 then "-" + Numeral(-value, 10) else Numeral(value, 10)
  }

  lemma DigitChar(d: nat)
    requires d < 16
    ensures CharValue(HexChar(d)) == d
    ensures d < 10 ==> DIGITS[ZERO + d] == HexChar(d) && DIGITS[ZERO - d] == HexChar(d)
    ensures HexChar(d) != '-' && (HexChar(d) == '0' <==> d == 0)
  {
  }

  lemma ReverseFirst(ds: seq<nat>)
    requires |ds| > 0 && forall i :: 0 <= i < |ds| ==> ds[i] < 16
    ensures Reverse(Chars(ds)) == Reverse(Chars(ds[1..])) + [HexChar(ds[0])]
  {
  }

  lemma ParseLast(s: string, c: char, base: nat)
    ensures Parse(s + [c], base) == Parse(s, base) * base + CharValue(c)
  {
    assert (s + [c])[..|s|] == s;
  }

  lemma DigitsUnfold(n: nat, base: nat)
    requires base >= 2
    ensures n < base ==> Digits(n, base) == [n]
    ensures n >= base ==>
              Digits(n, base)[0] == n % base && Digits(n, base)[1..] == Digits(n / base, base) && n / base < n
    ensures n == (n / base) * base + n % base
  {
    if n >= base { SmallerQuotient(n, base); }
  }

  lemma {:induction false} ParseReversed(ds: seq<nat>, n: nat, base: nat)
    requires 2 <= base <= 16 && ds == Digits(n, base) && forall i :: 0 <= i < |ds| ==> ds[i] < 16
    ensures Parse(Reverse(Chars(ds)), base) == n
    decreases n
  {
    hide Reverse, Chars, Parse, CharValue, HexChar, Digits;
    DigitsUnfold(n, base);
    ReverseFirst(ds);
    DigitChar(ds[0]);
    ParseLast(Reverse(Chars(ds[1..])), HexChar(ds[0]), base);
    if n < base {
      assert ds[1..] == [];
      ParseNothing(base);
    } else {
      ParseReversed(ds[1..], n / base, base);
    }
  }

  lemma ParseNothing(base: nat)
    ensures Parse(Reverse(Chars([])), base) == 0
  {
  }

  /** Parsing gives the number back, in any base, and a numeral has no leading zero. */
  lemma NumeralRoundTrip(n: nat, base: nat)
    requires 2 <= base <= 16
    ensures Parse(Numeral(n, base), base) == n
    ensures |Numeral(n, base)| >= 1 && (Numeral(n, base)[0] == '0' <==> n == 0)
    ensures n == 0 ==> Numeral(n, base) == "0"
    ensures Numeral(n, base)[0] != '-'
  {
    DigitsSmall(n, base);
    ParseReversed(Digits(n, base), n, base);
    assert Numeral(n, base)[0] == HexChar(Digits(n, base)[|Digits(n, base)| - 1]);
  }

  /** Numeric printing round trip, for every value, the minimum included. */
  lemma DecimalRoundTrip(value: int)
    ensures ParseSigned(Decimal(value)) == value
    ensures value < 0 <==> Decimal(value)[0] == '-'
    ensures value != 0 ==> Decimal(value)[if value < 0 then 1 else 0] != '0'
  {
    hide Numeral, Parse;
    if value < 0 {
      NumeralRoundTrip(-value, 10);
      assert Decimal(value)[1..] == Numeral(-value, 10);
    } else {
      NumeralRoundTrip(value, 10);
    }
  }

  function Power(base: nat, k: nat): nat {
    if k == 0 then 1 else base * Power(base, k - 1)
  }

  lemma {:induction false} DigitCount(n: nat, base: nat, k: nat)
    requires base >= 2 && k >= 1 && n < Power(base, k)
    ensures |Digits(n, base)| <= k
    decreases k
  {
    if n >= base {
      assert Power(base, k) == base * Power(base, k - 1) && Power(base, 0) == 1;
      SmallerQuotient(n, base);
      QuotientBelow(n, base, Power(base, k - 1));
      DigitCount(n / base, base, k - 1);
    }
  }

  lemma QuotientBelow(n: nat, m: nat, q: nat)
    requires m > 0 && n < m * q
    ensures n / m < q
  {
    assert n == (n / m) * m + n % m;
    if n / m >= q {
      MulMonotone(q, n / m, m);
      assert false;
    }
  }

  predicate Is64Bit(value: int) {
    -0x8000_0000_0000_0000 <= value < 0x1_0000_0000_0000_0000
  }

  lemma Powers()
    ensures Power(10, 19) == 10_000_000_000_000_000_000 && Power(10, 20) == 100_000_000_000_000_000_000
    ensures Power(16, 16) == 0x1_0000_0000_0000_0000
  {
    assert Power(10, 5) == 100_000 && Power(16, 4) == 0x1_0000;
    PowerAdds(10, 5, 5);
    PowerAdds(10, 10, 5);
    PowerAdds(10, 15, 4);
    PowerAdds(10, 15, 5);
    PowerAdds(16, 4, 4);
    PowerAdds(16, 8, 8);
    assert Power(10, 4) == 10_000;
  }

  lemma {:induction false} PowerAdds(base: nat, j: nat, k: nat)
    ensures Power(base, j + k) == Power(base, j) * Power(base, k)
    decreases k
  {
    if k > 0 {
      PowerAdds(base, j, k - 1);
      assert Power(base, j + k) == base * Power(base, j + k - 1);
      assert base * (Power(base, j) * Power(base, k - 1)) == Power(base, j) * (base * Power(base, k - 1));
    } else {
      assert Power(base, 0) == 1;
    }
  }

  /** At most 20 characters, so 21 bytes with the terminator, for every signed or unsigned 64-bit value. */
  lemma DecimalLength(value: int)
    requires Is64Bit(value)
    ensures 1 <= |Decimal(value)| <= 20
  {
    Powers();
    hide Power;
    if value < 0 { DigitCount(-value, 10, 19); } else { DigitCount(value, 10, 20); }
  }

  lemma HexLength(value: nat)
    requires value < 0x1_0000_0000_0000_0000
    ensures 1 <= |Numeral(value, 16)| <= 16
  {
    Powers();
    hide Power;
    DigitCount(value, 16, 16);
  }

  // ---------- printing in place ----------

  function Abs(value: int): nat { if value < 0 then -value else value }

  /** Reverses `buf[lo..hi]` and touches nothing else. */
  method ReverseRange(buf: array<char>, lo: nat, hi: nat)
    requires lo <= hi <= buf.Length
    modifies buf
    ensures buf[..] == old(buf[..lo]) + Reverse(old(buf[lo..hi])) + old(buf[hi..])
  {
    var first, last := lo, hi;
    while first < last
      invariant lo <= first <= last + 1 && last <= hi && first - lo == hi - last
      invariant forall k :: lo <= k < first ==> buf[k] == old(buf[lo + hi - 1 - k])
      invariant forall k :: last <= k < hi ==> buf[k] == old(buf[lo + hi - 1 - k])
      invariant forall k :: first <= k < last ==> buf[k] == old(buf[k])
      invariant forall k :: 0 <= k < lo || hi <= k < buf.Length ==> buf[k] == old(buf[k])
    {
      last := last - 1;
      if first < last {
        buf[first], buf[last] := buf[last], buf[first];
      }
      first := first + 1;
    }
    AllReversed(old(buf[..]), buf[..], lo, hi);
    assert old(buf[..])[..lo] == old(buf[..lo]) && old(buf[..])[lo..hi] == old(buf[lo..hi]);
    assert old(buf[..])[hi..] == old(buf[hi..]);
  }

  lemma AllReversed(was: string, now: string, lo: nat, hi: nat)
    requires lo <= hi <= |was| == |now|
    requires forall k :: lo <= k < hi ==> now[k] == was[lo + hi - 1 - k]
    requires forall k :: 0 <= k < lo || hi <= k < |was| ==> now[k] == was[k]
    ensures now == was[..lo] + Reverse(was[lo..hi]) + was[hi..]
  {
  }

  /** `text` with its terminator replaces what stood at `at`; the rest of `was` stays. */
  function Written(was: string, at: nat, text: string): string
    requires at + |text| + 1 <= |was|
  {
    was[..at] + text + ['\0'] + was[at + |text| + 1..]
  }

  lemma ReversedIsDecimal(value: int)
    requires forall i :: 0 <= i < |Digits(Abs(value), 10)| ==> Digits(Abs(value), 10)[i] < 16
    ensures Reverse(Chars(Digits(Abs(value), 10)) + if value < 0 then "-" else "") == Decimal(value)
    ensures |Decimal(value)| == |Digits(Abs(value), 10)| + if value < 0 then 1 else 0
  {
    hide Digits;
    var s := Chars(Digits(Abs(value), 10));
    if value < 0 {
      assert Reverse(s + "-") == "-" + Reverse(s);
    } else {
      assert s + "" == s;
    }
  }

  lemma CharsOf(ds: seq<nat>, text: string)
    requires forall i :: 0 <= i < |ds| ==> ds[i] < 16
    requires |text| == |ds| && forall i :: 0 <= i < |ds| ==> text[i] == HexChar(ds[i])
    ensures text == Chars(ds)
  {
  }

  lemma SplicedIsWritten(was: string, mid: string, at: nat, p: nat, text: string)
    requires |mid| == |was| && at <= p < |was| && |text| == p - at
    requires mid[p] == '\0' && forall k :: 0 <= k < at || p < k < |was| ==> mid[k] == was[k]
    ensures mid[..at] + text + mid[p..] == Written(was, at, text)
  {
    assert mid[p..] == ['\0'] + was[p + 1..];
    assert mid[..at] == was[..at];
  }

  /** One turn of the loop takes the least digit off, for either sign. */
  lemma LeastDigit(i: int)
    ensures -10 < TruncMod(i, 10) < 10 && DIGITS[ZERO + TruncMod(i, 10)] == HexChar(Abs(TruncMod(i, 10)))
    ensures Digits(Abs(i), 10)[0] == Abs(TruncMod(i, 10))
    ensures if TruncDiv(i, 10) == 0 then |Digits(Abs(i), 10)| == 1
            else Digits(Abs(i), 10)[1..] == Digits(Abs(TruncDiv(i, 10)), 10)
    ensures if i == 0 then TruncDiv(i, 10) == 0 else Abs(TruncDiv(i, 10)) < Abs(i)
    ensures if i < 0 then TruncDiv(i, 10) <= 0 else TruncDiv(i, 10) >= 0
  {
    var m := Abs(i);
    DigitChar(m % 10);
    DigitsUnfold(m, 10);
  }

  /** The loop: the digits of `value`, least significant first. */
  method PutDigits(buf: array<char>, at: nat, value: int) returns (p: nat)
    requires at + |Digits(Abs(value), 10)| <= buf.Length
    modifies buf
    ensures p == at + |Digits(Abs(value), 10)|
    ensures forall i :: 0 <= i < |Digits(Abs(value), 10)| ==> Digits(Abs(value), 10)[i] < 16
    ensures buf[at..p] == Chars(Digits(Abs(value), 10))
    ensures forall k :: 0 <= k < at || p <= k < buf.Length ==> buf[k] == old(buf[k])
  {
    hide Digits, HexChar, Chars, TruncDiv, TruncMod;
    ghost var all := Digits(Abs(value), 10);
    DigitsSmall(Abs(value), 10);
    var i := value;
    p := at;
    ghost var done: seq<nat> := [];
    while true
      invariant |done| <= |all| && done == all[..|done|] && all[|done|..] == Digits(Abs(i), 10)
      invariant p == at + |done|
      invariant forall k :: 0 <= k < |done| ==> buf[at + k] == HexChar(done[k])
      invariant forall k :: 0 <= k < at || p <= k < buf.Length ==> buf[k] == old(buf[k])
      decreases Abs(i)
    {
      LeastDigit(i);
      var lsd := TruncMod(i, 10);
      done := done + [Abs(lsd)];
      i := TruncDiv(i, 10);
      buf[p] := DIGITS[ZERO + lsd];
      p := p + 1;
      if i == 0 { break; }
    }
    CharsOf(all, buf[at..p]);
  }

  /** Prints `value` at `at`, whatever its sign and size, given room for it and its terminator. */
  method Convert(buf: array<char>, at: nat, value: int) returns (n: nat)
    requires at + |Decimal(value)| + 1 <= buf.Length
    modifies buf
    ensures n == |Decimal(value)|
    ensures buf[..] == Written(old(buf[..]), at, Decimal(value))
  {
    hide Digits, Chars, Reverse, Decimal, Written;
    DigitsSmall(Abs(value), 10);
    ReversedIsDecimal(value);
    var p := PutDigits(buf, at, value);
    ghost var digits := buf[at..p];
    if value < 0 {
      buf[p] := '-';
      p := p + 1;
    }
    buf[p] := '\0';
    assert buf[at..p] == digits + if value < 0 then "-" else "";
    SplicedIsWritten(old(buf[..]), buf[..], at, p, Decimal(value));
    assert buf[..][at..p] == buf[at..p] && buf[..][p..] == buf[p..] && buf[..][..at] == buf[..at];
    ReverseRange(buf, at, p);
    n := p - at;
  }

  /** Prints `value` in base 16 at `at`. */
  method ConvertHex(buf: array<char>, at: nat, value: nat) returns (n: nat)
    requires at + |Numeral(value, 16)| + 1 <= buf.Length
    modifies buf
    ensures n == |Numeral(value, 16)|
    ensures buf[..] == Written(old(buf[..]), at, Numeral(value, 16))
  {
    hide Digits, HexChar, Chars, Reverse, Numeral, Written;
    ghost var all := Digits(value, 16);
    NumeralIsReversed(value, 16);
    var i, p := value, at;
    ghost var done: seq<nat> := [];
    while true
      invariant |done| <= |all| && done == all[..|done|] && all[|done|..] == Digits(i, 16)
      invariant p == at + |done|
      invariant forall k :: 0 <= k < |done| ==> buf[at + k] == HexChar(done[k])
      invariant forall k :: 0 <= k < at || p <= k < buf.Length ==> buf[k] == old(buf[k])
      decreases i
    {
      LeastHexDigit(i);
      var lsd := i % 16;
      done := done + [lsd];
      i := i / 16;
      buf[p] := DIGITS_HEX[lsd];
      p := p + 1;
      if i == 0 { break; }
    }
    buf[p] := '\0';
    CharsOf(all, buf[at..p]);
    SplicedIsWritten(old(buf[..]), buf[..], at, p, Numeral(value, 16));
    assert buf[..][at..p] == buf[at..p] && buf[..][p..] == buf[p..] && buf[..][..at] == buf[..at];
    ReverseRange(buf, at, p);
    n := p - at;
  }

  lemma NumeralIsReversed(n: nat, base: nat)
    requires 2 <= base <= 16
    ensures forall i :: 0 <= i < |Digits(n, base)| ==> Digits(n, base)[i] < 16
    ensures Numeral(n, base) == Reverse(Chars(Digits(n, base)))
    ensures |Numeral(n, base)| == |Digits(n, base)|
  {
    hide Digits, HexChar;
    DigitsSmall(n, base);
  }

  lemma LeastHexDigit(i: nat)
    ensures DIGITS_HEX[i % 16] == HexChar(i % 16)
    ensures Digits(i, 16)[0] == i % 16
    ensures if i / 16 == 0 then |Digits(i, 16)| == 1 else Digits(i, 16)[1..] == Digits(i / 16, 16)
    ensures if i == 0 then i / 16 == 0 else i / 16 < i
  {
    DigitsUnfold(i, 16);
  }

  // ---------- the stream ----------

  const BUFFER_SIZE: nat := 4096
  const MAX_NUMERIC_SIZE: nat := 32

  datatype Item = Text(text: string) | Integer(value: int) | Pointer(address: nat)

  /** The arguments the C++ types allow: any string, any 64-bit value of either sign, any address. */
  predicate Printable(item: Item) {
    match item
    case Text(_) => true
    case Integer(value) => Is64Bit(value)
    case Pointer(address) => address < 0x1_0000_0000_0000_0000
  }

  function Rendered(item: Item): string {
    match item
    case Text(text) => text
    case Integer(value) => Decimal(value)
    case Pointer(address) => "0x" + Numeral(address, 16)
  }

  /** The guard each operator tests before it writes. */
  predicate Accepted(item: Item, room: nat) {
    if item.Text? then room > |item.text| else room >= MAX_NUMERIC_SIZE
  }

  function Put(text: string, item: Item): string
    requires |text| <= BUFFER_SIZE
  {
    if Accepted(item, BUFFER_SIZE - |text|) then text + Rendered(item) else text
  }

  /** The guard leaves room for the text and its terminator: no write leaves the buffer. */
  lemma GuardSuffices(item: Item, room: nat)
    requires Printable(item) && Accepted(item, room)
    ensures |Rendered(item)| + 1 <= room
    ensures !item.Text? ==> |Rendered(item)| <= 20
  {
    hide Numeral, Decimal;
    match item
    case Text(_) =>
    case Integer(value) => DecimalLength(value);
    case Pointer(address) => HexLength(address);
  }

  function PutAll(text: string, items: seq<Item>): string
    requires |text| < BUFFER_SIZE && forall item :: item in items ==> Printable(item)
    decreases |items|
  {
    if items == [] then text else PutKeepsRoom(text, items[0]); PutAll(Put(text, items[0]), items[1..])
  }

  lemma PutKeepsRoom(text: string, item: Item)
    requires |text| < BUFFER_SIZE && Printable(item)
    ensures |Put(text, item)| < BUFFER_SIZE
  {
    hide Rendered;
    if Accepted(item, BUFFER_SIZE - |text|) { GuardSuffices(item, BUFFER_SIZE - |text|); }
  }

  function RenderedAll(items: seq<Item>): seq<string> {
    seq(|items|, i requires 0 <= i < |items| => Rendered(items[i]))
  }

  /** Which of the items a stream holding `text` takes. */
  function Kept(text: string, items: seq<Item>): seq<Item>
    requires |text| < BUFFER_SIZE && forall item :: item in items ==> Printable(item)
    decreases |items|
  {
    if items == [] then []
    else
      PutKeepsRoom(text, items[0]);
      (if Accepted(items[0], BUFFER_SIZE - |text|) then [items[0]] else []) + Kept(Put(text, items[0]), items[1..])
  }

  lemma RenderedFirst(item: Item, rest: seq<Item>)
    ensures Flatten(RenderedAll([item] + rest)) == Rendered(item) + Flatten(RenderedAll(rest))
    ensures Flatten(RenderedAll([])) == ""
  {
    hide Rendered;
    assert RenderedAll([item] + rest)[1..] == RenderedAll(rest);
  }

  /**
   * Over any run of `<<`, each item is printed whole and in order or not at all, and the buffer is
   * never filled to its end.
   */
  lemma {:induction false} PutAllWhole(text: string, items: seq<Item>)
    requires |text| < BUFFER_SIZE && forall item :: item in items ==> Printable(item)
    ensures PutAll(text, items) == text + Flatten(RenderedAll(Kept(text, items)))
    ensures |PutAll(text, items)| < BUFFER_SIZE
    decreases |items|
  {
    hide Rendered, Accepted, Printable, RenderedAll, Flatten;
    if items == [] {
      RenderedFirst(Item.Text(""), []);
    } else {
      var next := Put(text, items[0]);
      PutKeepsRoom(text, items[0]);
      PutAllWhole(next, items[1..]);
      var rest := Kept(next, items[1..]);
      if Accepted(items[0], BUFFER_SIZE - |text|) {
        RenderedFirst(items[0], rest);
        ConcatAssoc(text, Rendered(items[0]), Flatten(RenderedAll(rest)));
      } else {
        assert [] + rest == rest;
      }
    }
  }

  /** A run whose text ends at least one numeral short of the buffer loses nothing. */
  lemma {:induction false} NothingDropped(text: string, items: seq<Item>)
    requires forall item :: item in items ==> Printable(item)
    requires |text| + |Flatten(RenderedAll(items))| + MAX_NUMERIC_SIZE <= BUFFER_SIZE
    ensures Kept(text, items) == items
    decreases |items|
  {
    hide Rendered;
    if items != [] {
      assert RenderedAll(items)[1..] == RenderedAll(items[1..]);
      PutKeepsRoom(text, items[0]);
      TakesItem(text, items[0]);
      NothingDropped(Put(text, items[0]), items[1..]);
    }
  }

  lemma TakesItem(text: string, item: Item)
    requires |text| + |Rendered(item)| + MAX_NUMERIC_SIZE <= BUFFER_SIZE
    ensures Accepted(item, BUFFER_SIZE - |text|)
  {
    hide Decimal, Numeral;
  }

  /** What `<<` makes of a stream's text: with 32 bytes left a number's digits, which read back as it; an
      address as `0x` and its digits; a text if more than its length is left; and otherwise nothing. */
  lemma PutReadsBack(text: string, item: Item)
    requires |text| <= BUFFER_SIZE
    ensures var put, room := Put(text, item), BUFFER_SIZE - |text|;
            && text <= put
            && (if item.Text? then put == (if room > |item.text| then text + item.text else text)
                else if room < 32 then put == text
                else if item.Integer? then |put| > |text| && ParseSigned(put[|text|..]) == item.value
                else |put| > |text| + 2 && put[|text|..|text| + 2] == "0x"
                     && Parse(put[|text| + 2..], 16) == item.address)
  {
    hide Decimal, Numeral, Parse, ParseSigned;
    match item
    case Text(_) =>
    case Integer(value) =>
      DecimalRoundTrip(value);
      NotEmpty(value);
      assert (text + Decimal(value))[|text|..] == Decimal(value);
    case Pointer(address) =>
      NumeralRoundTrip(address, 16);
      assert (text + ("0x" + Numeral(address, 16)))[|text| + 2..] == Numeral(address, 16);
  }

  lemma NotEmpty(value: int)
    ensures |Decimal(value)| >= 1
  {
    hide Numeral;
    if value >= 0 { NumeralRoundTrip(value, 10); }
  }

  class LogStream {
    const data: array<char>
    var cur: nat

    ghost predicate Valid()
      reads this, data
    {
      data.Length == BUFFER_SIZE && cur <= BUFFER_SIZE
    }

    ghost function Text(): string
      requires Valid()
      reads this, data
    {
      data[..cur]
    }

    constructor ()
      ensures Valid() && fresh(data) && Text() == ""
    {
      data := new char[BUFFER_SIZE];
      cur := 0;
    }

    function Avail(): nat
      requires Valid()
      reads this, data
    {
      data.Length - cur
    }

    method Reset()
      requires Valid()
      modifies this`cur
      ensures Valid() && Text() == ""
    {
      cur := 0;
    }

    method Append(buf: string)
      requires Valid()
      modifies this`cur, data
      ensures Valid() && Text() == Put(old(Text()), Item.Text(buf))
      ensures Text() == if BUFFER_SIZE - |old(Text())| > |buf| then old(Text()) + buf else old(Text())
    {
      if Avail() > |buf| {
        ghost var before := Text();
        forall i | 0 <= i < |buf| { data[cur + i] := buf[i]; }
        cur := cur + |buf|;
        assert Text() == before + buf;
      }
    }

    method FormatInteger(v: int)
      requires Valid() && Is64Bit(v)
      modifies this`cur, data
      ensures Valid() && Text() == Put(old(Text()), Integer(v)) && old(Text()) <= Text()
      ensures if BUFFER_SIZE - |old(Text())| >= 32 then
                |Text()| > |old(Text())| && ParseSigned(Text()[|old(Text())|..]) == v
              else Text() == old(Text())
    {
      hide Decimal, Is64Bit, ParseSigned;
      PutReadsBack(Text(), Integer(v));
      if Avail() >= MAX_NUMERIC_SIZE {
        GuardSuffices(Integer(v), Avail());
        var n := Convert(data, cur, v);
        cur := cur + n;
      }
    }

    method PrintPointer(p: nat)
      requires Valid() && p < 0x1_0000_0000_0000_0000
      modifies this`cur, data
      ensures Valid() && Text() == Put(old(Text()), Pointer(p)) && old(Text()) <= Text()
      ensures if BUFFER_SIZE - |old(Text())| >= 32 then
                var n := |old(Text())|; |Text()| > n + 2 && Text()[n..n + 2] == "0x" && Parse(Text()[n + 2..], 16) == p
              else Text() == old(Text())
    {
      hide Numeral, Parse;
      PutReadsBack(Text(), Pointer(p));
      if Avail() >= MAX_NUMERIC_SIZE {
        ghost var before := Text();
        GuardSuffices(Pointer(p), Avail());
        Prefix();
        var n := ConvertHex(data, cur, p);
        cur := cur + n;
        assert Text() == (before + "0x") + Numeral(p, 16);
        ConcatAssoc(before, "0x", Numeral(p, 16));
      }
    }

    method Prefix()
      requires Valid() && Avail() >= 2
      modifies this`cur, data
      ensures Valid() && Text() == old(Text()) + "0x"
    {
      data[cur], data[cur + 1] := '0', 'x';
      cur := cur + 2;
    }
  }
}
