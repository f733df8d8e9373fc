/**
 How PUT and DELETE turn their URL into a list index:
 `parseInt(req.url.split('/').pop(), 10)`, then the bounds check
 `isNaN(index) || index < 0 || index >= list.length`.
 */
module IndexParsing {
  import opened JsValues

  /** `url.split('/').pop()`: the text after the last '/', or the whole url
      when it has none. The three postconditions determine it: the longest
      suffix of the url that holds no '/'. */
  function LastSegment(url: string): (seg: string)
    ensures '/' !in seg
    ensures |seg| <= |url| && seg == url[|url| - |seg|..]
    ensures |seg| < |url| ==> url[|url| - |seg| - 1] == '/'
    decreases |url|
  {
    if url == [] || url[|url| - 1] == '/' then []
    else
      var init := url[..|url| - 1];
      var prev := LastSegment(init);
      SuffixGrows(url, prev);
      prev + [url[|url| - 1]]
  }

  /** A suffix of a string without its last character, extended by that
      character, is a suffix of the string, and the character before it is
      the same. */
  lemma SuffixGrows(url: string, prev: string)
    requires |url| > 0 && |prev| < |url| && prev == url[..|url| - 1][|url| - 1 - |prev|..]
    ensures prev + [url[|url| - 1]] == url[|url| - 1 - |prev|..]
    ensures |prev| + 1 < |url| ==> url[..|url| - 1][|url| - 2 - |prev|] == url[|url| - 2 - |prev|]
  {
  }

  /** Whatever precedes it, a '/' followed by a segment without '/' ends the
      url's last segment there. */
  lemma LastSegmentAfterSlash(prefix: string, seg: string)
    requires '/' !in seg
    ensures LastSegment(prefix + "/" + seg) == seg
  {
    var url := prefix + "/" + seg;
    assert url[|url| - |seg|..] == seg;
    assert url[|url| - |seg| - 1] == '/';
    LastSegmentIsSlashFreeSuffix(url, seg);
  }

  /** The last segment is the slash-free suffix that a '/' precedes. */
  lemma LastSegmentIsSlashFreeSuffix(url: string, seg: string)
    requires |seg| < |url| && seg == url[|url| - |seg|..] && '/' !in seg
    requires url[|url| - |seg| - 1] == '/'
    ensures LastSegment(url) == seg
  {
    var r := LastSegment(url);
    // the '/' before `seg` is not inside the last segment
    SlashPrecedesSuffix(url, r, |url| - |seg| - 1);
    // the '/' before the last segment is not inside `seg`
    if |r| < |url| {
      SlashPrecedesSuffix(url, seg, |url| - |r| - 1);
    }
    assert |r| == |seg|;
  }

  /** A '/' of the url lies before every suffix that holds none. */
  lemma SlashPrecedesSuffix(url: string, suffix: string, p: nat)
    requires |suffix| <= |url| && suffix == url[|url| - |suffix|..] && '/' !in suffix
    requires p < |url| && url[p] == '/'
    ensures p < |url| - |suffix|
  {
  }

  predicate IsDigit(c: char) {
    '0' <= c <= '9'
  }

  predicate AllDigits(s: string) {
    forall i :: 0 <= i < |s| ==> IsDigit(s[i])
  }

  /** StrWhiteSpaceChar of ECMAScript, which `parseInt` skips before the
      number: tab, vertical tab, form feed, the space separators (category
      Zs), the byte order mark and the four line terminators. */
  predicate IsStrWhiteSpace(c: char) {
    || c == '\t' || c == '\U{000B}' || c == '\U{000C}' || c == '\U{FEFF}'
    || c == ' ' || c == '\U{00A0}' || c == '\U{1680}' || ('\U{2000}' <= c <= '\U{200A}')
    || c == '\U{202F}' || c == '\U{205F}' || c == '\U{3000}'
    || c == '\n' || c == '\r' || c == '\U{2028}' || c == '\U{2029}'
  }

  /** The string with its leading white space removed. */
  function TrimStart(s: string): (t: string)
    ensures |t| <= |s| && t == s[|s| - |t|..]
    ensures forall i :: 0 <= i < |s| - |t| ==> IsStrWhiteSpace(s[i])
    ensures t == [] || !IsStrWhiteSpace(t[0])
  {
    if s != [] && IsStrWhiteSpace(s[0]) then TrimStart(s[1..]) else s
  }

  /** The longest prefix of `s` made of decimal digits. */
  function DigitPrefix(s: string): (ds: string)
    ensures |ds| <= |s| && ds == s[..|ds|] && AllDigits(ds)
    ensures |ds| == |s| || !IsDigit(s[|ds|])
  {
    if s != [] && IsDigit(s[0]) then [s[0]] + DigitPrefix(s[1..]) else []
  }

  function DigitValue(c: char): (d: nat)
    requires IsDigit(c)
    ensures d < 10
  {
    (c as int) - ('0' as int)
  }

  /** The number a string of decimal digits denotes, most significant first. */
  function DigitsValue(ds: string): nat
    requires AllDigits(ds)
  {
    if ds == [] then 0 else DigitsValue(ds[..|ds| - 1]) * 10 + DigitValue(ds[|ds| - 1])
  }

  predicate AllStrWhiteSpace(s: string) {
    forall i :: 0 <= i < |s| ==> IsStrWhiteSpace(s[i])
  }

  /** `parseInt(s, 10)`, with NaN as None: skip leading white space, take an
      optional sign, then read the longest run of decimal digits; no digits
      at all gives NaN, and whatever follows the digits is ignored. */
  function ParseInt(s: string): Option<int> {
    ParseSigned(TrimStart(s))
  }

  /** An optional sign, then digits. */
  function ParseSigned(t: string): Option<int> {
    if t != [] && t[0] == '-' then
      match ParseDigits(t[1..])
      case None => None
      case Some(magnitude) => Some(-(magnitude as int))
    else if t != [] && t[0] == '+' then
      match ParseDigits(t[1..])
      case None => None
      case Some(magnitude) => Some(magnitude as int)
    else
      match ParseDigits(t)
      case None => None
      case Some(magnitude) => Some(magnitude as int)
  }

  /** The value of the longest run of digits at the start of `u`, or None
      when `u` does not start with a digit. */
  function ParseDigits(u: string): Option<nat> {
    var ds := DigitPrefix(u);
    if ds == [] then None else Some(DigitsValue(ds))
  }

  function DigitChar(d: nat): (c: char)
    requires d < 10
    ensures IsDigit(c) && DigitValue(c) == d
  {
    (('0' as int) + d) as char
  }

  /** The decimal numeral of `n` as a client writes it into the url: digits,
      most significant first, no leading zero. */
  function Decimal(n: nat): (ds: string)
    ensures ds != [] && AllDigits(ds)
    ensures ds[0] == '0' ==> n == 0
  {
    if n < 10 then [DigitChar(n)] else Decimal(n / 10) + [DigitChar(n % 10)]
  }

  /** Reading a numeral back gives the number it was written from. */
  lemma {:induction false} DigitsValueDecimal(n: nat)
    ensures DigitsValue(Decimal(n)) == n
  {
    if n >= 10 {
      var ds := Decimal(n);
      assert ds[..|ds| - 1] == Decimal(n / 10);
      DigitsValueDecimal(n / 10);
    }
  }

  /** The digit run of a numeral followed by a non-digit stops at the numeral. */
  lemma {:induction false} DigitPrefixStopsAtNonDigit(ds: string, rest: string)
    requires AllDigits(ds)
    requires rest == [] || !IsDigit(rest[0])
    ensures DigitPrefix(ds + rest) == ds
  {
    if ds != [] {
      assert (ds + rest)[1..] == ds[1..] + rest;
      DigitPrefixStopsAtNonDigit(ds[1..], rest);
    }
  }

  /** The digit run of a numeral followed by a non-digit is worth the number. */
  lemma ParseDigitsDecimal(n: nat, rest: string)
    requires rest == [] || !IsDigit(rest[0])
    ensures ParseDigits(Decimal(n) + rest) == Some(n)
  {
    DigitPrefixStopsAtNonDigit(Decimal(n), rest);
    DigitsValueDecimal(n);
  }

  /** Nothing that starts with a digit or a sign has white space to trim. */
  lemma TrimStartKeeps(s: string)
    requires s != [] && (IsDigit(s[0]) || s[0] == '-' || s[0] == '+')
    ensures TrimStart(s) == s
  {
    assert !IsStrWhiteSpace(s[0]);
  }

  /** `parseInt` reads back the numeral of any natural number and ignores a
      tail that does not start with a digit (`"3abc"` reads as 3). */
  lemma ParseIntDecimal(n: nat, rest: string)
    requires rest == [] || !IsDigit(rest[0])
    ensures ParseInt(Decimal(n) + rest) == Some(n as int)
  {
    var s := Decimal(n) + rest;
    assert s[0] == Decimal(n)[0];
    TrimStartKeeps(s);
    ParseDigitsDecimal(n, rest);
    assert ParseDigits(s) == Some(n);
  }

  /** The same with a minus sign in front: `"-3"` reads as -3. */
  lemma ParseIntNegatedDecimal(n: nat, rest: string)
    requires rest == [] || !IsDigit(rest[0])
    ensures ParseInt("-" + Decimal(n) + rest) == Some(-(n as int))
  {
    var unsigned := Decimal(n) + rest;
    var s := "-" + unsigned;
    assert s == "-" + Decimal(n) + rest;
    assert s[0] == '-' && s[1..] == unsigned;
    TrimStartKeeps(s);
    ParseDigitsDecimal(n, rest);
    assert ParseDigits(s[1..]) == Some(n);
  }

  /** A segment that starts with anything but white space, a sign or a digit
      reads as NaN (`"milk"`, `"Infinity"`, `".5"`). */
  lemma ParseIntNaN(s: string)
    requires s != [] && !IsStrWhiteSpace(s[0]) && !IsDigit(s[0]) && s[0] != '-' && s[0] != '+'
    ensures ParseInt(s) == None
  {
    assert TrimStart(s) == s;
  }

  /** Leading white space is skipped up to the first other character. */
  lemma {:induction false} TrimStartSkips(ws: string, u: string)
    requires AllStrWhiteSpace(ws)
    requires u == [] || !IsStrWhiteSpace(u[0])
    ensures TrimStart(ws + u) == u
  {
    if ws != [] {
      assert (ws + u)[0] == ws[0];
      assert (ws + u)[1..] == ws[1..] + u;
      TrimStartSkips(ws[1..], u);
    }
  }

  /** What `parseInt(s, 10)` gives for every string. Each string splits into
      its leading white space `ws`, an optional sign, the longest run of
      digits `ds` after it, and the rest; when there is neither sign nor
      digit, the rest starts with neither white space nor a sign. The result
      is NaN exactly when the digit run is empty, and otherwise the run's
      value, negated only under a minus sign (`"+3"` is 3, `"007"` is 7,
      `" -2x"` is -2). */
  lemma ParseIntReadsPrefix(ws: string, sign: string, ds: string, rest: string)
    requires AllStrWhiteSpace(ws)
    requires sign == "" || sign == "+" || sign == "-"
    requires AllDigits(ds)
    requires rest == [] || !IsDigit(rest[0])
    requires ds == [] && sign == "" && rest != [] ==>
               !IsStrWhiteSpace(rest[0]) && rest[0] != '+' && rest[0] != '-'
    ensures ParseInt(ws + sign + ds + rest) ==
              if ds == [] then None
              else if sign == "-" then Some(-(DigitsValue(ds) as int))
              else Some(DigitsValue(ds) as int)
  {
    if sign == "" {
      assert ws + sign + ds + rest == ws + (ds + rest);
      ParseIntUnsignedCase(ws, ds, rest);
    } else {
      assert sign == [sign[0]];
      assert ws + sign + ds + rest == ws + ([sign[0]] + (ds + rest));
      ParseIntSignedCase(ws, sign[0], ds, rest);
    }
  }

  /** No sign: after the white space the digit run is read as it stands. */
  lemma ParseIntUnsignedCase(ws: string, ds: string, rest: string)
    requires AllStrWhiteSpace(ws)
    requires AllDigits(ds)
    requires rest == [] || !IsDigit(rest[0])
    requires ds == [] && rest != [] ==>
               !IsStrWhiteSpace(rest[0]) && rest[0] != '+' && rest[0] != '-'
    ensures ParseInt(ws + (ds + rest)) == if ds == [] then None else Some(DigitsValue(ds) as int)
  {
    var u := ds + rest;
    if ds != [] {
      assert u[0] == ds[0];
    } else {
      assert u == rest;
    }
    TrimStartSkips(ws, u);
    UnsignedReads(ds, rest);
  }

  /** A sign: after the white space the sign is read, then the digit run. */
  lemma ParseIntSignedCase(ws: string, c: char, ds: string, rest: string)
    requires AllStrWhiteSpace(ws)
    requires c == '-' || c == '+'
    requires AllDigits(ds)
    requires rest == [] || !IsDigit(rest[0])
    ensures ParseInt(ws + ([c] + (ds + rest))) ==
              if ds == [] then None
              else if c == '-' then Some(-(DigitsValue(ds) as int))
              else Some(DigitsValue(ds) as int)
  {
    var u := [c] + (ds + rest);
    assert u[0] == c;
    TrimStartSkips(ws, u);
    if ds == [] {
      assert ds + rest == rest;
      SignedNaN(c, rest);
    } else {
      SignedValue(c, ds, rest);
    }
  }

  /** A run of digits at the very start is read as it stands. */
  lemma ParseIntDigits(ds: string, rest: string)
    requires ds != [] && AllDigits(ds)
    requires rest == [] || !IsDigit(rest[0])
    ensures ParseInt(ds + rest) == Some(DigitsValue(ds) as int)
  {
    var u := ds + rest;
    assert u[0] == ds[0];
    TrimStartKeeps(u);
    UnsignedReads(ds, rest);
  }

  /** After a sign a run of digits is read, and negated under a minus. */
  lemma SignedValue(c: char, ds: string, rest: string)
    requires c == '-' || c == '+'
    requires ds != [] && AllDigits(ds)
    requires rest == [] || !IsDigit(rest[0])
    ensures ParseSigned([c] + (ds + rest)) ==
              Some(if c == '-' then -(DigitsValue(ds) as int) else DigitsValue(ds) as int)
  {
    ParseDigitsReads(ds, rest);
    SignStep(c, ds + rest, Some(DigitsValue(ds)));
  }

  /** A sign with no digit after it reads as NaN. */
  lemma SignedNaN(c: char, rest: string)
    requires c == '-' || c == '+'
    requires rest == [] || !IsDigit(rest[0])
    ensures ParseSigned([c] + rest) == None
  {
    ParseDigitsReads([], rest);
    assert [] + rest == rest;
    SignStep(c, rest, None);
  }

  /** A sign in front negates the digits' value under a minus, keeps it
      under a plus, and leaves NaN as NaN. */
  lemma SignStep(c: char, unsigned: string, digits: Option<nat>)
    requires c == '-' || c == '+'
    requires ParseDigits(unsigned) == digits
    ensures digits.None? ==> ParseSigned([c] + unsigned) == None
    ensures digits.Some? && c == '-' ==> ParseSigned([c] + unsigned) == Some(-(digits.value as int))
    ensures digits.Some? && c == '+' ==> ParseSigned([c] + unsigned) == Some(digits.value as int)
  {
    var t := [c] + unsigned;
    assert t[0] == c && t[1..] == unsigned;
  }

  /** Without a sign the digit run is read as it stands. */
  lemma UnsignedReads(ds: string, rest: string)
    requires AllDigits(ds)
    requires rest == [] || !IsDigit(rest[0])
    requires ds == [] && rest != [] ==> rest[0] != '+' && rest[0] != '-'
    ensures ParseSigned(ds + rest) == if ds == [] then None else Some(DigitsValue(ds) as int)
  {
    var u := ds + rest;
    ParseDigitsReads(ds, rest);
    if ds != [] {
      assert u[0] == ds[0];
    } else {
      assert u == rest;
    }
  }

  /** The digit step: the run of digits up to the first non-digit. */
  lemma ParseDigitsReads(ds: string, rest: string)
    requires AllDigits(ds)
    requires rest == [] || !IsDigit(rest[0])
    ensures ParseDigits(ds + rest) == if ds == [] then None else Some(DigitsValue(ds))
  {
    DigitPrefixStopsAtNonDigit(ds, rest);
  }

  /** `parseInt(url.split('/').pop(), 10)`. */
  function RequestedIndex(url: string): Option<int> {
    ParseInt(LastSegment(url))
  }

  /** The index that `parseInt` reads from the url's last segment: for every
      url that ends in '/' and a segment, the segment read as in
      `ParseIntReadsPrefix` (`"/shopping-list/a/2"` names 2). */
  lemma RequestedIndexReadsLastSegment(prefix: string, ws: string, sign: string, ds: string, rest: string)
    requires AllStrWhiteSpace(ws)
    requires sign == "" || sign == "+" || sign == "-"
    requires AllDigits(ds)
    requires rest == [] || !IsDigit(rest[0])
    requires ds == [] && sign == "" && rest != [] ==>
               !IsStrWhiteSpace(rest[0]) && rest[0] != '+' && rest[0] != '-'
    requires '/' !in rest
    ensures RequestedIndex(prefix + "/" + ws + sign + ds + rest) ==
              if ds == [] then None
              else if sign == "-" then Some(-(DigitsValue(ds) as int))
              else Some(DigitsValue(ds) as int)
  {
    var seg := ws + sign + ds + rest;
    assert '/' !in seg by {
      assert forall i :: 0 <= i < |ws| ==> IsStrWhiteSpace(ws[i]);
      assert forall i :: 0 <= i < |ds| ==> IsDigit(ds[i]);
      assert '/' !in ws && '/' !in ds && '/' !in sign;
    }
    assert prefix + "/" + ws + sign + ds + rest == prefix + "/" + seg;
    LastSegmentAfterSlash(prefix, seg);
    ParseIntReadsPrefix(ws, sign, ds, rest);
  }

  /** A plus sign is read and dropped: `"+3"` reads as 3. */
  lemma ParseIntPlusDecimal(n: nat, rest: string)
    requires rest == [] || !IsDigit(rest[0])
    ensures ParseInt("+" + Decimal(n) + rest) == Some(n as int)
  {
    var unsigned := Decimal(n) + rest;
    var s := "+" + unsigned;
    assert s == "+" + Decimal(n) + rest;
    assert s == ['+'] + unsigned;
    TrimStartKeeps(s);
    DigitsValueDecimal(n);
    SignedValue('+', Decimal(n), rest);
  }

  predicate AllZeros(z: string) {
    forall i :: 0 <= i < |z| ==> z[i] == '0'
  }

  /** Zeros alone are worth nothing. */
  lemma {:induction false} ZerosValue(z: string)
    requires AllZeros(z)
    ensures AllDigits(z) && DigitsValue(z) == 0
  {
    if z != [] {
      ZerosValue(z[..|z| - 1]);
    }
  }

  /** Zeros in front of a run of digits do not change its value. */
  lemma {:induction false} LeadingZerosValue(z: string, ds: string)
    requires AllZeros(z) && AllDigits(ds)
    ensures AllDigits(z + ds) && DigitsValue(z + ds) == DigitsValue(ds)
  {
    ZerosValue(z);
    if ds == [] {
      assert z + ds == z;
    } else {
      var init := ds[..|ds| - 1];
      LeadingZerosValue(z, init);
      assert (z + ds)[..|z + ds| - 1] == z + init;
      assert (z + ds)[|z + ds| - 1] == ds[|ds| - 1];
    }
  }

  /** Leading zeros change nothing: `"007"` reads as 7. */
  lemma LeadingZerosRead(z: string, n: nat, rest: string)
    requires AllZeros(z)
    requires rest == [] || !IsDigit(rest[0])
    ensures ParseInt(z + Decimal(n) + rest) == Some(n as int)
  {
    LeadingZerosValue(z, Decimal(n));
    DigitsValueDecimal(n);
    ParseIntDigits(z + Decimal(n), rest);
  }

  /** Only the last segment is read: `"/shopping-list/a/2"` names 2. */
  lemma NestedUrlIndex()
    ensures RequestedIndex("/shopping-list/a/2") == Some(2)
  {
    var url := "/shopping-list/a" + "/" + "2";
    assert url == "/shopping-list/a/2";
    LastSegmentAfterSlash("/shopping-list/a", "2");
    assert DigitsValue("2") == 2 by { assert "2"[..0] == ""; }
    ParseIntReadsPrefix("", "", "2", "");
    assert "" + "" + "2" + "" == "2";
  }

  /** `isNaN(index) || index < 0 || index >= list.length`: an index is bad
      exactly when it names no position of a list of that length. */
  function IsBadIndex(index: Option<int>, length: nat): (bad: bool)
    ensures !bad <==> exists i :: 0 <= i < length && index == Some(i)
  {
    if index.None? || index.value < 0 || index.value >= length then true
    else assert index == Some(index.value); false
  }
}
