// The names of the files in the photo cache: an order number of at least twelve
// digits, a dash, the photo's id and the extension. They are read back and compared.
module CardNames {
  import opened Arithmetic
  import opened Wrappers

  const MIN_ORDER_DIGITS: nat := 12
  const FIRST_UNPADDED_ORDER: nat := 1_000_000_000_000
  const U64_LIMIT: nat := 0x1_0000_0000_0000_0000
  const PHOTO_EXTENSION := "rgb565"
  const TEMP_EXTENSION := "part"

  function Pow10(k: nat): (p: nat)
    ensures p > 0
  {
    if k == 0 then 1 else 10 * Pow10(k - 1)
  }

  /** The low `width` decimal digits of `n`, most significant first. */
  function Digits(n: nat, width: nat): (s: string)
    ensures |s| == width
    decreases width
  {
    if width == 0 then "" else Digits(n / 10, width - 1) + [DigitChar(n % 10)]
  }

  function DigitChar(d: nat): char
    requires d < 10
  {
    '0' + d as char
  }

  function DigitCount(n: nat): (c: nat)
    ensures c >= 1 && n < Pow10(c)
  {
    if n < 10 then assert Pow10(1) == 10 * Pow10(0); 1 else 1 + DigitCount(n / 10)
  }

  function OrderWidth(order: nat): nat {
    if DigitCount(order) < MIN_ORDER_DIGITS then MIN_ORDER_DIGITS else DigitCount(order)
  }

  function OrderText(order: nat): string {
    Digits(order, OrderWidth(order))
  }

  function PathFor(order: nat, id: string): string {
    OrderText(order) + "-" + id + "." + PHOTO_EXTENSION
  }

  /** The final name with its extension replaced, as `with_extension` does. */
  function TempFor(order: nat, id: string): string {
    FileStem(PathFor(order, id)) + "." + TEMP_EXTENSION
  }

  // Reading a name back.

  /** One past the last dot of a name, or zero when there is none. */
  function AfterLastDot(name: string): (i: nat)
    ensures i <= |name|
    ensures i > 0 ==> name[i - 1] == '.'
    ensures '.' !in name[i..]
    decreases |name|
  {
    if name == "" then 0
    else if name[|name| - 1] == '.' then |name|
    else
      var i := AfterLastDot(name[..|name| - 1]);
      assert name[i..] == name[..|name| - 1][i..] + [name[|name| - 1]];
      i
  }

  // A leading dot starts a hidden file's name; it does not start an extension.
  function FileStem(name: string): string {
    var i := AfterLastDot(name);
    if i <= 1 then name else name[..i - 1]
  }

  function Extension(name: string): Option<string> {
    var i := AfterLastDot(name);
    if i <= 1 then None else Some(name[i..])
  }

  function SplitOnce(s: string, separator: char): (r: Option<(string, string)>)
    ensures r.None? <==> separator !in s
    ensures r.Some? ==> s == r.value.0 + [separator] + r.value.1 && separator !in r.value.0
  {
    if s == "" then None
    else if s[0] == separator then Some(("", s[1..]))
    else
      var rest := SplitOnce(s[1..], separator);
      if rest.None? then None else Some(([s[0]] + rest.value.0, rest.value.1))
  }

  function PhotoIdOf(name: string): Option<string> {
    var parts := SplitOnce(FileStem(name), '-');
    if parts.None? then None else Some(parts.value.1)
  }

  function OrderOf(name: string): Option<nat> {
    var parts := SplitOnce(FileStem(name), '-');
    if parts.None? then None else ParseU64(parts.value.0)
  }

  predicate IsDigit(c: char) {
    '0' <= c <= '9'
  }

  function DigitsValue(s: string): nat
    requires forall c :: c in s ==> IsDigit(c)
  {
    if s == "" then 0
    else
      assert IsDigit(s[|s| - 1]);
      10 * DigitsValue(s[..|s| - 1]) + (s[|s| - 1] as int - '0' as int)
  }

  /** Rust's `str::parse::<u64>`: an optional plus, digits, and no overflow. */
  function ParseU64(s: string): Option<nat> {
    var body := if |s| > 0 && s[0] == '+' then s[1..] else s;
    if body == "" || exists c :: c in body && !IsDigit(c) then None
    else if DigitsValue(body) >= U64_LIMIT then None
    else Some(DigitsValue(body))
  }

  predicate IsAlphanumeric(c: char) {
    IsDigit(c) || 'A' <= c <= 'Z' || 'a' <= c <= 'z'
  }

  predicate UsableId(id: string) {
    id != "" && forall c :: c in id ==> IsAlphanumeric(c)
  }

  lemma {:induction false} DigitsAreDigits(n: nat, width: nat)
    ensures forall c :: c in Digits(n, width) ==> IsDigit(c)
  {
    if width > 0 {
      DigitsAreDigits(n / 10, width - 1);
    }
  }

  lemma ValueOfOneMore(s: string, d: nat)
    requires d < 10 && forall c :: c in s ==> IsDigit(c)
    ensures forall c :: c in s + [DigitChar(d)] ==> IsDigit(c)
    ensures DigitsValue(s + [DigitChar(d)]) == 10 * DigitsValue(s) + d
  {
    var longer := s + [DigitChar(d)];
    assert longer[..|longer| - 1] == s;
  }

  lemma {:induction false} DigitsParseBack(n: nat, width: nat)
    requires n < Pow10(width)
    ensures forall c :: c in Digits(n, width) ==> IsDigit(c)
    ensures DigitsValue(Digits(n, width)) == n
  {
    if width > 0 {
      DigitsParseBack(n / 10, width - 1);
      hide DigitsValue, DigitChar, IsDigit;
      ValueOfOneMore(Digits(n / 10, width - 1), n % 10);
    }
  }

  lemma OrderTextParsesBack(order: nat)
    requires order < U64_LIMIT
    ensures ParseU64(OrderText(order)) == Some(order)
  {
    var width := OrderWidth(order);
    PowMonotone(DigitCount(order), width);
    DigitsParseBack(order, width);
    assert OrderText(order)[0] in OrderText(order);
  }

  lemma {:induction false} PowMonotone(a: nat, b: nat)
    requires a <= b
    ensures Pow10(a) <= Pow10(b)
  {
    if a < b {
      PowMonotone(a, b - 1);
    }
  }

  lemma {:induction false} SplitAt(prefix: string, separator: char, rest: string)
    requires separator !in prefix
    ensures SplitOnce(prefix + [separator] + rest, separator) == Some((prefix, rest))
  {
    var s := prefix + [separator] + rest;
    if prefix == "" {
      assert s[1..] == rest;
    } else {
      assert s[1..] == prefix[1..] + [separator] + rest;
      SplitAt(prefix[1..], separator, rest);
      assert [prefix[0]] + prefix[1..] == prefix;
    }
  }

  lemma {:induction false} LastDotAt(stem: string, ext: string)
    requires '.' !in ext && stem != ""
    ensures AfterLastDot(stem + "." + ext) == |stem| + 1
    ensures FileStem(stem + "." + ext) == stem
    ensures Extension(stem + "." + ext) == Some(ext)
  {
    var name := stem + "." + ext;
    var i := AfterLastDot(name);
    assert name[|stem|] == '.';
    assert forall k :: i <= k < |name| ==> name[k] in name[i..] by {
      assert forall k :: i <= k < |name| ==> name[k] == name[i..][k - i];
    }
    assert forall k :: |stem| < k < |name| ==> name[k] == ext[k - |stem| - 1];
    assert name[..|stem|] == stem;
    assert name[|stem| + 1..] == ext;
  }

  /** A final name gives back its order number and its photo id. */
  lemma NameRoundTrip(order: nat, id: string)
    requires UsableId(id) && order < U64_LIMIT
    ensures Extension(PathFor(order, id)) == Some(PHOTO_EXTENSION)
    ensures PhotoIdOf(PathFor(order, id)) == Some(id)
    ensures OrderOf(PathFor(order, id)) == Some(order)
  {
    var stem := OrderText(order) + "-" + id;
    DigitsAreDigits(order, OrderWidth(order));
    LastDotAt(stem, PHOTO_EXTENSION);
    SplitAt(OrderText(order), '-', id);
    OrderTextParsesBack(order);
  }

  /** Two photos never share a name, and no temporary name is a photo's. */
  lemma NamesAreDistinct(order: nat, id: string, order': nat, id': string)
    requires UsableId(id) && UsableId(id') && order < U64_LIMIT && order' < U64_LIMIT
    ensures PathFor(order, id) == PathFor(order', id') <==> order == order' && id == id'
    ensures Extension(TempFor(order, id)) == Some(TEMP_EXTENSION)
    ensures TempFor(order, id) != PathFor(order', id')
  {
    NameRoundTrip(order, id);
    NameRoundTrip(order', id');
    var stem := OrderText(order) + "-" + id;
    LastDotAt(stem, PHOTO_EXTENSION);
    LastDotAt(stem, TEMP_EXTENSION);
  }

  // Name order.

  predicate NameBefore(a: string, b: string)
    decreases |a|
  {
    if b == "" then false
    else if a == "" then true
    else a[0] < b[0] || (a[0] == b[0] && NameBefore(a[1..], b[1..]))
  }

  predicate NameLeq(a: string, b: string) {
    a == b || NameBefore(a, b)
  }

  lemma {:induction false} NameOrderIsTotal(a: string, b: string)
    ensures NameBefore(a, b) || a == b || NameBefore(b, a)
    ensures !(NameBefore(a, b) && NameBefore(b, a)) && !NameBefore(a, a)
    decreases |a|
  {
    if a != "" {
      NameOrderIsTotal(a[1..], a[1..]);
      if b != "" {
        NameOrderIsTotal(a[1..], b[1..]);
        assert a[0] == b[0] && a[1..] == b[1..] ==> a == b by {
          assert a == [a[0]] + a[1..] && b == [b[0]] + b[1..];
        }
      }
    }
  }

  lemma {:induction false} NameOrderIsTransitive(a: string, b: string, c: string)
    requires NameBefore(a, b) && NameBefore(b, c)
    ensures NameBefore(a, c)
    decreases |a|
  {
    if a != "" && a[0] == b[0] == c[0] {
      NameOrderIsTransitive(a[1..], b[1..], c[1..]);
    }
  }

  lemma {:induction false} CommonPrefix(prefix: string, a: string, b: string)
    ensures NameBefore(prefix + a, prefix + b) == NameBefore(a, b)
  {
    if prefix == "" {
      assert prefix + a == a && prefix + b == b;
    } else {
      assert (prefix + a)[1..] == prefix[1..] + a;
      assert (prefix + b)[1..] == prefix[1..] + b;
      CommonPrefix(prefix[1..], a, b);
    }
  }

  lemma {:induction false} SmallerDigitsFirst(m: nat, n: nat, width: nat, s: string, t: string)
    requires m < n < Pow10(width)
    ensures NameBefore(Digits(m, width) + s, Digits(n, width) + t)
    decreases width
  {
    var high, high' := Digits(m / 10, width - 1), Digits(n / 10, width - 1);
    var low, low' := [DigitChar(m % 10)] + s, [DigitChar(n % 10)] + t;
    assert Digits(m, width) + s == high + low;
    assert Digits(n, width) + t == high' + low';
    if m / 10 == n / 10 {
      CommonPrefix(high, low, low');
    } else {
      SmallerDigitsFirst(m / 10, n / 10, width - 1, low, low');
    }
  }

  /** `n` with its last `k` decimal digits cut off. */
  function Lead(n: nat, k: nat): nat
    decreases k
  {
    if k == 0 then n else Lead(n / 10, k - 1)
  }

  lemma {:induction false} LeadIsQuotient(n: nat, k: nat)
    ensures Lead(n, k) == n / Pow10(k)
  {
    if k > 0 {
      LeadIsQuotient(n / 10, k - 1);
      DivideTwice(n, 10, Pow10(k - 1));
    }
  }

  /** The first digits of a wide number are those of its lead. */
  lemma {:induction false} LeadingDigits(n: nat, width: nat, extra: nat)
    ensures Digits(n, width + extra) == Digits(Lead(n, extra), width) + Digits(n, extra)
    decreases extra
  {
    if extra > 0 {
      LeadingDigits(n / 10, width, extra - 1);
    }
  }

  lemma {:induction false} LeadFits(n: nat, width: nat, extra: nat)
    requires n < Pow10(width + extra)
    ensures Lead(n, extra) < Pow10(width)
    decreases extra
  {
    if extra > 0 {
      LeadFits(n / 10, width, extra - 1);
    }
  }

  lemma {:induction false} DigitCountMonotone(m: nat, n: nat)
    requires m <= n
    ensures DigitCount(m) <= DigitCount(n)
  {
    if m >= 10 {
      DigitCountMonotone(m / 10, n / 10);
    }
  }

  lemma {:induction false} DigitCountBelow(n: nat, k: nat)
    requires k > 0 && n < Pow10(k)
    ensures DigitCount(n) <= k
  {
    if n >= 10 {
      assert k > 1 by {
        assert Pow10(1) == 10 * Pow10(0);
      }
      DigitCountBelow(n / 10, k - 1);
    }
  }

  lemma DigitCountAtLeast(n: nat, k: nat)
    requires Pow10(k) <= n
    ensures DigitCount(n) > k
  {
    if DigitCount(n) <= k {
      PowMonotone(DigitCount(n), k);
    }
  }

  function NameTail(id: string): (t: string)
    ensures t != "" && t[0] == '-'
  {
    "-" + id + "." + PHOTO_EXTENSION
  }

  lemma PathSplit(order: nat, id: string)
    ensures PathFor(order, id) == OrderText(order) + NameTail(id)
  {
    Regroup(OrderText(order), "-", id, ".", PHOTO_EXTENSION);
  }

  lemma Regroup(a: string, b: string, c: string, d: string, e: string)
    ensures a + b + c + d + e == a + (b + c + d + e)
  {
  }

  lemma WidthMonotone(m: nat, n: nat)
    requires m <= n
    ensures OrderWidth(m) <= OrderWidth(n)
  {
    DigitCountMonotone(m, n);
  }

  lemma FitsItsWidth(n: nat)
    ensures n < Pow10(OrderWidth(n))
  {
    PowMonotone(DigitCount(n), OrderWidth(n));
  }

  /** How many more digits the order text of `n` has than that of `m`. */
  function ExtraDigits(m: nat, n: nat): nat {
    if OrderWidth(m) < OrderWidth(n) then OrderWidth(n) - OrderWidth(m) else 0
  }

  /** Directory order agrees with arrival order exactly when the earlier number
      is at most the leading digits of the later one. */
  lemma NameOrderExact(m: nat, id: string, n: nat, id': string)
    requires m < n
    ensures NameBefore(PathFor(m, id), PathFor(n, id')) <==> m <= Lead(n, ExtraDigits(m, n))
  {
    hide Digits, Pow10, NameBefore, Lead, DigitCount, PathFor;
    WidthMonotone(m, n);
    FitsItsWidth(m);
    FitsItsWidth(n);
    PathSplit(m, id);
    PathSplit(n, id');
    DigitOrderExact(m, NameTail(id), n, NameTail(id'), OrderWidth(m), ExtraDigits(m, n));
  }

  lemma DigitOrderExact(m: nat, tail: string, n: nat, tail': string, width: nat, extra: nat)
    requires m < n && m < Pow10(width) && n < Pow10(width + extra)
    requires tail != "" && tail[0] == '-'
    ensures NameBefore(Digits(m, width) + tail, Digits(n, width + extra) + tail')
       <==> m <= Lead(n, extra)
  {
    var lead, low := Lead(n, extra), Digits(n, extra) + tail';
    LeadingDigits(n, width, extra);
    assert Digits(n, width + extra) + tail' == Digits(lead, width) + low;
    LeadFits(n, width, extra);
    CompareAfterLead(m, lead, width, tail, low);
    if extra > 0 {
      DashBeforeDigits(tail, n, extra, tail');
    }
  }

  lemma DashBeforeDigits(tail: string, n: nat, extra: nat, tail': string)
    requires tail != "" && tail[0] == '-' && extra > 0
    ensures NameBefore(tail, Digits(n, extra) + tail')
  {
    DigitsAreDigits(n, extra);
    assert Digits(n, extra)[0] in Digits(n, extra);
  }

  lemma CompareAfterLead(m: nat, lead: nat, width: nat, tail: string, low: string)
    requires m < Pow10(width) && lead < Pow10(width)
    ensures m != lead ==>
      (NameBefore(Digits(m, width) + tail, Digits(lead, width) + low) <==> m < lead)
    ensures m == lead ==>
      (NameBefore(Digits(m, width) + tail, Digits(lead, width) + low) <==> NameBefore(tail, low))
  {
    if m < lead {
      SmallerDigitsFirst(m, lead, width, tail, low);
    } else if m > lead {
      SmallerDigitsFirst(lead, m, width, low, tail);
      NameOrderIsTotal(Digits(m, width) + tail, Digits(lead, width) + low);
    } else {
      CommonPrefix(Digits(m, width), tail, low);
    }
  }

  lemma {:induction false} PowSum(a: nat, b: nat)
    ensures Pow10(a + b) == Pow10(a) * Pow10(b)
  {
    if b > 0 {
      PowSum(a, b - 1);
      assert Pow10(a) * (10 * Pow10(b - 1)) == 10 * (Pow10(a) * Pow10(b - 1));
    }
  }

  lemma TwelveDigits()
    ensures Pow10(MIN_ORDER_DIGITS) == FIRST_UNPADDED_ORDER
  {
    assert Pow10(2) == 100 by { assert Pow10(1) == 10 * Pow10(0); }
    PowSum(2, 2);
    PowSum(4, 4);
    PowSum(8, 4);
  }

  /** Below ten to the twelfth, sorting names is sorting arrivals. */
  lemma PaddedOrderIsArrivalOrder(m: nat, id: string, n: nat, id': string)
    requires m < FIRST_UNPADDED_ORDER && n < FIRST_UNPADDED_ORDER && m != n
    ensures NameBefore(PathFor(m, id), PathFor(n, id')) <==> m < n
  {
    TwelveDigits();
    DigitCountBelow(m, MIN_ORDER_DIGITS);
    DigitCountBelow(n, MIN_ORDER_DIGITS);
    assert Pow10(0) == 1;
    if m < n {
      NameOrderExact(m, id, n, id');
    } else {
      NameOrderExact(n, id', m, id);
      NameOrderIsTotal(PathFor(m, id), PathFor(n, id'));
    }
  }

  /** The first number that outgrows its padding sorts before its predecessor. */
  lemma ThirteenthDigitBreaksOrder(id: string, id': string)
    ensures !NameBefore(PathFor(FIRST_UNPADDED_ORDER - 1, id), PathFor(FIRST_UNPADDED_ORDER, id'))
  {
    var m, n := FIRST_UNPADDED_ORDER - 1, FIRST_UNPADDED_ORDER;
    TwelveDigits();
    DigitCountBelow(m, MIN_ORDER_DIGITS);
    assert Pow10(13) == 10 * Pow10(12);
    DigitCountBelow(n, 13);
    DigitCountAtLeast(n, 12);
    NameOrderExact(m, id, n, id');
    assert Pow10(1) == 10 * Pow10(0);
  }
}
