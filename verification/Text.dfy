/** JavaScript string operations shared by the codecs: join, split, decimal numbers. */
module Text {

  datatype Option<+T> = None | Some(value: T)

  // -------------------------------------------------------------- first of many

  function FirstSome<T>(options: seq<Option<T>>, from: nat): Option<T>
    requires from <= |options|
    decreases |options| - from
  {
    if from == |options| then None else if options[from].Some? then options[from] else FirstSome(options, from + 1)
  }

  lemma {:induction false} FirstSomeIs<T>(options: seq<Option<T>>, from: nat, i: nat)
    requires from <= i < |options| && options[i].Some? && forall j | from <= j < i :: options[j].None?
    ensures FirstSome(options, from) == options[i]
    decreases i - from
  {
    if from < i { FirstSomeIs(options, from + 1, i); }
  }

  lemma {:induction false} FirstSomeFound<T>(options: seq<Option<T>>, from: nat) returns (i: nat)
    requires from <= |options|
    ensures from <= i <= |options| && forall j | from <= j < i :: options[j].None?
    ensures i < |options| ==> options[i].Some? && FirstSome(options, from) == options[i]
    ensures i == |options| ==> FirstSome(options, from) == None
    decreases |options| - from
  {
    i := from;
    if from < |options| && options[from].None? { i := FirstSomeFound(options, from + 1); }
  }

  // ------------------------------------------------------------ join and split

  /** Array.prototype.join with a one-character separator. */
  function Join(parts: seq<string>, sep: char): string
  {
    if |parts| == 0 then ""
    else if |parts| == 1 then parts[0]
    else parts[0] + [sep] + Join(parts[1..], sep)
  }

  /** String.prototype.split with a one-character separator. */
  function Split(s: string, sep: char): (parts: seq<string>)
    ensures |parts| > 0
  {
    if s == "" then [""]
    else
      var rest := Split(s[1..], sep);
      if s[0] == sep then [""] + rest else [[s[0]] + rest[0]] + rest[1..]
  }

  lemma {:induction false} SplitFirst(piece: string, sep: char, tail: string)
    requires sep !in piece
    ensures Split(piece + [sep] + tail, sep) == [piece] + Split(tail, sep)
  {
    var s := piece + [sep] + tail;
    if piece == "" {
      assert s[1..] == tail;
    } else {
      assert s[1..] == piece[1..] + [sep] + tail && [piece[0]] + piece[1..] == piece;
      SplitFirst(piece[1..], sep, tail);
    }
  }

  lemma {:induction false} SplitWhole(piece: string, sep: char)
    requires sep !in piece
    ensures Split(piece, sep) == [piece]
  {
    if piece != "" {
      assert [piece[0]] + piece[1..] == piece;
      SplitWhole(piece[1..], sep);
    }
  }

  /** Joining undoes splitting, and no piece holds the separator. */
  lemma {:induction false} JoinSplit(s: string, sep: char)
    ensures Join(Split(s, sep), sep) == s && forall p | p in Split(s, sep) :: sep !in p
  {
    if s != "" {
      var rest := Split(s[1..], sep);
      JoinSplit(s[1..], sep);
      assert s == [s[0]] + s[1..];
      if s[0] == sep {
        assert ([""] + rest)[1..] == rest;
      } else {
        assert ([[s[0]] + rest[0]] + rest[1..])[1..] == rest[1..];
      }
    }
  }

  /** Splitting undoes joining when no part contains the separator. */
  lemma {:induction false} SplitJoin(parts: seq<string>, sep: char)
    requires |parts| > 0
    requires forall p | p in parts :: sep !in p
    ensures Split(Join(parts, sep), sep) == parts
  {
    if |parts| == 1 {
      SplitWhole(parts[0], sep);
    } else {
      assert forall p | p in parts[1..] :: p in parts;
      SplitFirst(parts[0], sep, Join(parts[1..], sep));
      SplitJoin(parts[1..], sep);
    }
  }

  lemma JoinInjective(a: seq<string>, b: seq<string>, sep: char)
    requires |a| > 0 && |b| > 0
    requires forall p | p in a :: sep !in p
    requires forall p | p in b :: sep !in p
    requires Join(a, sep) == Join(b, sep)
    ensures a == b
  {
    SplitJoin(a, sep);
    SplitJoin(b, sep);
  }

  /** What trim removes and \s matches: the white space and line terminators of ECMAScript. */
  predicate IsSpace(c: char)
  {
    || '\t' <= c <= '\r' || c == ' ' || c == '\U{A0}' || c == '\U{1680}' || '\U{2000}' <= c <= '\U{200A}'
    || c == '\U{2028}' || c == '\U{2029}' || c == '\U{202F}' || c == '\U{205F}' || c == '\U{3000}' || c == '\U{FEFF}'
  }

  // ------------------------------------------------------------------ trimming

  predicate AllSpace(s: string) { forall c | c in s :: IsSpace(c) }

  function TrimStart(s: string): string
  {
    if s != "" && IsSpace(s[0]) then TrimStart(s[1..]) else s
  }

  function TrimEnd(s: string): string
  {
    if s != "" && IsSpace(s[|s| - 1]) then TrimEnd(s[..|s| - 1]) else s
  }

  /** String.prototype.trim. */
  function Trim(s: string): string { TrimEnd(TrimStart(s)) }

  lemma {:induction false} TrimStartSkips(before: string, s: string)
    requires AllSpace(before) && s != "" && !IsSpace(s[0])
    ensures TrimStart(before + s) == s
  {
    if before == "" {
      assert before + s == s;
    } else {
      assert (before + s)[1..] == before[1..] + s;
      TrimStartSkips(before[1..], s);
    }
  }

  lemma {:induction false} TrimEndSkips(s: string, after: string)
    requires AllSpace(after) && s != "" && !IsSpace(s[|s| - 1])
    ensures TrimEnd(s + after) == s
  {
    if after == "" {
      assert s + after == s;
    } else {
      assert (s + after)[..|s| + |after| - 1] == s + after[..|after| - 1];
      TrimEndSkips(s, after[..|after| - 1]);
    }
  }

  lemma TrimPadded(before: string, s: string, after: string)
    requires AllSpace(before) && AllSpace(after) && s != "" && !IsSpace(s[0]) && !IsSpace(s[|s| - 1])
    ensures Trim(before + s + after) == s
  {
    assert before + s + after == before + (s + after);
    TrimStartSkips(before, s + after);
    TrimEndSkips(s, after);
  }

  /** No white space at either end. */
  predicate Tight(s: string) { s != "" && !IsSpace(s[0]) && !IsSpace(s[|s| - 1]) }

  lemma TightStays(s: string, nothing: string)
    requires Tight(s) && nothing == ""
    ensures Trim(s) == s
  {
    TrimPadded(nothing, s, nothing);
    assert nothing + s + nothing == s;
  }

  lemma {:induction false} StartCut(s: string) returns (cut: string)
    ensures s == cut + TrimStart(s) && AllSpace(cut) && (TrimStart(s) == "" || !IsSpace(TrimStart(s)[0]))
  {
    cut := "";
    if s != "" && IsSpace(s[0]) {
      var more := StartCut(s[1..]);
      cut := [s[0]] + more;
    }
  }

  lemma {:induction false} EndCut(s: string) returns (cut: string)
    ensures s == TrimEnd(s) + cut && AllSpace(cut)
    ensures TrimEnd(s) == "" || (!IsSpace(TrimEnd(s)[|TrimEnd(s)| - 1]) && TrimEnd(s)[0] == s[0])
  {
    cut := "";
    if s != "" && IsSpace(s[|s| - 1]) {
      var more := EndCut(s[..|s| - 1]);
      cut := more + [s[|s| - 1]];
    }
  }

  /** Trimming takes white space off both ends, and all of it. */
  lemma TrimCuts(s: string) returns (before: string, after: string)
    ensures s == before + Trim(s) + after && AllSpace(before) && AllSpace(after)
    ensures Trim(s) == "" || Tight(Trim(s))
  {
    before := StartCut(s);
    after := EndCut(TrimStart(s));
  }

  // -------------------------------------------------------------- bytes and MACs

  /** The character classes by code point. */
  lemma CodePoints(c: char)
    ensures IsDigit(c) <==> 48 <= c as int <= 57
    ensures IsHexDigit(c) <==> 48 <= c as int <= 57 || 97 <= c as int <= 102
    ensures var n := c as int;
            IsSpace(c) <==> 9 <= n <= 13 || n == 32 || n == 160 || n == 5760 || 8192 <= n <= 8202 || n == 8232
                            || n == 8233 || n == 8239 || n == 8287 || n == 12288 || n == 65279
  {
  }

  type byte = b: int | 0 <= b < 256

  predicate IsHexDigit(c: char) { '0' <= c <= '9' || 'a' <= c <= 'f' }

  /** A 256-bit MAC in lower-case hexadecimal. */
  predicate IsMac(s: string) { |s| == 64 && forall c | c in s :: IsHexDigit(c) }

  /** A MAC under a fixed secret prints as 64 digits. */
  ghost predicate MacIsHex(mac: string -> string) { forall m :: IsMac(mac(m)) }

  /** So does a MAC under any secret. */
  ghost predicate HmacIsHex(hmac: (string, string) -> string) { forall k, m :: IsMac(hmac(k, m)) }

  // ------------------------------------------------------------------ numbers

  predicate IsDigit(c: char) { '0' <= c <= '9' }

  function DigitChar(d: nat): char
    requires d < 10
  {
    '0' + d as char
  }

  function DigitValue(c: char): (d: nat)
    requires IsDigit(c)
    ensures d < 10
  {
    (c - '0') as nat
  }

  function PrintNat(n: nat): (s: string)
    ensures s != "" && forall c | c in s :: IsDigit(c)
  {
    if n < 10 then [DigitChar(n)] else PrintNat(n / 10) + [DigitChar(n % 10)]
  }

  /** String(n) for an integer n. */
  function PrintInt(n: int): (s: string)
    ensures s != "" && forall c | c in s :: IsDigit(c) || c == '-'
  {
    if n < 0 then "-" + PrintNat(-n) else PrintNat(n)
  }

  function NatValue(s: string): nat
    requires forall c | c in s :: IsDigit(c)
  {
    if s == "" then 0 else 10 * NatValue(s[..|s| - 1]) + DigitValue(s[|s| - 1])
  }

  /** The digits by code point. */
  lemma DigitCodes(d: nat)
    requires d < 10
    ensures DigitChar(d) as int == 48 + d && DigitValue(DigitChar(d)) == d
  {
  }

  /** Reading digits is positional: a further digit multiplies by ten. */
  lemma NatValueStep(s: string, c: char)
    requires (forall x | x in s :: IsDigit(x)) && IsDigit(c)
    ensures NatValue(s + [c]) == 10 * NatValue(s) + (c as int - 48) && NatValue("") == 0
  {
    assert (s + [c])[..|s|] == s;
  }

  /** No leading zero; with `NatRoundTrip` this makes the digits those of n. */
  lemma {:induction false} NoLeadingZero(n: nat)
    ensures n > 0 ==> PrintNat(n)[0] != '0'
    ensures n == 0 ==> PrintNat(n) == "0"
  {
    if n >= 10 { NoLeadingZero(n / 10); }
  }

  predicate IsDecimal(s: string)
  {
    s != "" && forall c | c in s :: IsDigit(c)
  }

  /** Number(s) restricted to decimal digits with an optional sign; anything else is NaN. */
  function JsNumber(s: string): Option<int>
  {
    if IsDecimal(s) then Some(NatValue(s))
    else if s != "" && s[0] == '-' && IsDecimal(s[1..]) then Option<int>.Some(-(NatValue(s[1..]) as int))
    else if s != "" && s[0] == '+' && IsDecimal(s[1..]) then Some(NatValue(s[1..]))
    else None
  }

  lemma {:induction false} NatRoundTrip(n: nat)
    ensures NatValue(PrintNat(n)) == n
  {
    if n >= 10 {
      var s := PrintNat(n);
      assert s[..|s| - 1] == PrintNat(n / 10);
      NatRoundTrip(n / 10);
    }
  }

  lemma NumberRoundTrip(n: int)
    ensures JsNumber(PrintInt(n)) == Some(n)
  {
    if n < 0 {
      NatRoundTrip(-n);
      assert PrintInt(n)[0] == '-' && PrintInt(n)[1..] == PrintNat(-n);
      assert !IsDigit('-');
    } else {
      NatRoundTrip(n);
    }
  }

  /** A number is digits, possibly behind one sign. */
  lemma JsNumberExactly(digits: string)
    requires digits != "" && forall c | c in digits :: 48 <= c as int <= 57
    ensures JsNumber(digits) == JsNumber("+" + digits) == Some(NatValue(digits))
    ensures JsNumber("-" + digits) == Option<int>.Some(-(NatValue(digits) as int))
  {
    assert ("+" + digits)[1..] == digits && ("-" + digits)[1..] == digits;
    assert !IsDigit(("+" + digits)[0]) && !IsDigit(("-" + digits)[0]);
  }

  lemma OnlyNumbersAreRead(s: string) returns (digits: string)
    requires JsNumber(s).Some?
    ensures digits != "" && (forall c | c in digits :: 48 <= c as int <= 57)
    ensures s == digits || s == "+" + digits || s == "-" + digits
  {
    digits := if IsDecimal(s) then s else s[1..];
    assert s == digits || s == [s[0]] + digits;
  }

  lemma PrintIntInjective(a: int, b: int)
    requires PrintInt(a) == PrintInt(b)
    ensures a == b
  {
    NumberRoundTrip(a);
    NumberRoundTrip(b);
  }
}
