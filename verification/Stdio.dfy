/** itoa and vsprintf of stdio.c, against a rendering of the format and its arguments. */
module FormattedOutput {
  const WORD := 0x1_0000_0000
  const INT_LIMIT := 0x8000_0000

  // ----- digits -----

  predicate IsBase(base: int) { 2 <= base <= 16 }

  function DigitChar(m: nat): char
    requires m < 16
  {
    if m < 10 then ('0' as int + m) as char else ('A' as int + m - 10) as char
  }

  /** The digits of a number, most significant first. */
  function Digits(v: nat, base: nat): (ds: seq<char>)
    requires IsBase(base)
    ensures |ds| >= 1
  {
    if v / base == 0 then [DigitChar(v % base)] else Digits(v / base, base) + [DigitChar(v % base)]
  }

  /** The value of a digit character, and of a digit string. */
  function DigitValue(c: char): int {
    if '0' <= c <= '9' then c as int - '0' as int else c as int - 'A' as int + 10
  }

  function Parse(ds: seq<char>, base: nat): int {
    if ds == [] then 0 else Parse(ds[..|ds| - 1], base) * base + DigitValue(ds[|ds| - 1])
  }

  lemma DigitBack(m: nat)
    requires m < 16
    ensures DigitValue(DigitChar(m)) == m && DigitChar(m) == "0123456789ABCDEF"[m]
  {}

  /** One step of the recursion: quotient and remainder. */
  lemma Unfold(v: nat, base: nat) returns (q: nat, r: nat)
    requires IsBase(base)
    ensures r < base && q * base + r == v && (q != 0 ==> q < v) && (q == 0 ==> r == v)
    ensures Digits(v, base) == (if q == 0 then [] else Digits(q, base)) + [DigitChar(r)]
  {
    q, r := v / base, v % base;
    if q != 0 { QuotientSmaller(v, base); } else { SmallIsRemainder(v, base); }
  }

  /** The digits parse back to the number. */
  lemma {:induction false} DigitsParse(v: nat, base: nat)
    requires IsBase(base)
    ensures Parse(Digits(v, base), base) == v
  {
    hide Digits;
    var q, r := Unfold(v, base);
    DigitBack(r);
    var ds := if q == 0 then [] else Digits(q, base);
    assert Digits(v, base)[..|ds|] == ds;
    if q != 0 { DigitsParse(q, base); }
  }

  /** No leading zero, except for zero itself. */
  lemma {:induction false} NoLeadingZero(v: nat, base: nat)
    requires IsBase(base)
    ensures Digits(v, base)[0] == '0' <==> v == 0
    ensures v == 0 ==> Digits(v, base) == "0"
  {
    hide Digits;
    var q, r := Unfold(v, base);
    if q != 0 { NoLeadingZero(q, base); } else { DigitBack(r); }
  }

  lemma SmallIsRemainder(v: nat, base: nat)
    requires base > 0 && v / base == 0
    ensures v % base == v
  {}

  /** Every character is a digit of the base. */
  lemma {:induction false} DigitsInBase(v: nat, base: nat, i: nat)
    requires IsBase(base) && i < |Digits(v, base)|
    ensures 0 <= DigitValue(Digits(v, base)[i]) < base && Digits(v, base)[i] != '-' && Digits(v, base)[i] != '\0'
  {
    hide Digits;
    var q, r := Unfold(v, base);
    DigitBack(r);
    if q != 0 && i < |Digits(q, base)| {
      DigitsInBase(q, base, i);
    }
  }

  /** s written over b at position k. */
  function Written(b: seq<char>, k: nat, s: seq<char>): seq<char>
    requires k + |s| <= |b|
  {
    b[..k] + s + b[k + |s|..]
  }

  /** itoa: the cursor's position goes in and comes back. */
  method Itoa(value: nat, buf: array<char>, out: nat, base: nat) returns (out': nat)
    requires IsBase(base) && out + |Digits(value, base)| <= buf.Length
    modifies buf
    ensures out' == out + |Digits(value, base)|
    ensures buf[..] == Written(old(buf[..]), out, Digits(value, base))
    decreases value
  {
    hide Digits, DigitChar, Written;
    ghost var was := buf[..];
    var m := value % base;
    var i := value / base;
    Division(value, base);
    DigitsStep(value, base, i, m);
    NothingWritten(was, out);
    assert [] + [DigitChar(m)] == [DigitChar(m)];
    out' := out;
    if i != 0 {
      QuotientSmaller(value, base);
      out' := Itoa(i, buf, out', base);
    }
    ghost var before := buf[..];
    buf[out'] := DigitChar(m);
    assert buf[..] == before[out' := DigitChar(m)];
    ItoaStep(was, before, out, if i != 0 then Digits(i, base) else [], DigitChar(m));
    out' := out' + 1;
  }

  lemma DigitsStep(v: nat, base: nat, i: nat, m: int)
    requires IsBase(base) && i == v / base && m == v % base && 0 <= m < base
    ensures Digits(v, base) == if i == 0 then [DigitChar(m)] else Digits(i, base) + [DigitChar(m)]
  {}

  lemma Division(v: nat, base: nat)
    requires IsBase(base)
    ensures v / base >= 0 && 0 <= v % base < base
  {}

  lemma NothingWritten(was: seq<char>, out: nat)
    requires out <= |was|
    ensures Written(was, out, []) == was
  {}

  lemma QuotientSmaller(v: nat, base: nat)
    requires IsBase(base) && v / base != 0
    ensures v / base < v
  {}

  lemma ItoaStep(was: seq<char>, before: seq<char>, out: nat, ds: seq<char>, d: char)
    requires out + |ds| + 1 <= |was| && before == Written(was, out, ds)
    ensures before[out + |ds| := d] == Written(was, out, ds + [d])
  {}

  // ----- the arguments -----

  /** The 32-bit word of an argument slot as a signed integer. */
  function Signed(w: int): int { if w < INT_LIMIT then w else w - WORD }

  /** 0 - arg_int in 32-bit arithmetic, seen as the unsigned word handed to itoa. */
  function Negated(w: int): int { (0 - w) % WORD }

  /** %d */
  function Decimal(w: int): seq<char>
    requires 0 <= w < WORD
  {
    if Signed(w) < 0 then "-" + Digits(Negated(w), 10) else Digits(w, 10)
  }

  function ParseSigned(s: seq<char>): int {
    if s != [] && s[0] == '-' then -Parse(s[1..], 10) else Parse(s, 10)
  }

  /** %d is right for every 32-bit integer, the minimum included. */
  lemma DecimalParses(w: int)
    requires 0 <= w < WORD
    ensures ParseSigned(Decimal(w)) == Signed(w)
  {
    if Signed(w) < 0 {
      DigitsParse(Negated(w), 10);
      assert Decimal(w)[1..] == Digits(Negated(w), 10);
    } else {
      DigitsParse(w, 10);
      DigitsInBase(w, 10, 0);
    }
  }

  function ByteChar(w: int): char { (w % 256) as char }

  // ----- the rendering -----

  /** Every % is followed by a character. */
  predicate Complete(f: seq<char>) {
    if f == [] then true else if f[0] != '%' then Complete(f[1..]) else |f| >= 2 && Complete(f[2..])
  }

  /** Where vsprintf's cursor meets the NUL that ends its loop, in the characters from the format on; -1 when
      that is not among them. A % takes the next character with it, whatever it is. */
  function Stop(mem: seq<char>): (r: int)
    ensures r == -1 || (0 <= r < |mem| && mem[r] == '\0')
  {
    if mem == [] then -1
    else if mem[0] == '\0' then 0
    else if mem[0] != '%' then Behind(1, Stop(mem[1..]))
    else if |mem| == 1 then -1
    else Behind(2, Stop(mem[2..]))
  }

  function Behind(k: nat, r: int): int { if r < 0 then -1 else k + r }

  /** What the loop processes. */
  lemma {:induction false} StopComplete(mem: seq<char>)
    requires Stop(mem) >= 0
    ensures Complete(mem[..Stop(mem)])
  {
    var e := Stop(mem);
    if mem[0] == '\0' {
    } else if mem[0] != '%' {
      StopComplete(mem[1..]);
      assert mem[..e][1..] == mem[1..][..e - 1];
    } else {
      StopComplete(mem[2..]);
      assert mem[..e][2..] == mem[2..][..e - 2];
    }
  }

  /** The characters that the loop processes. */
  function Format(mem: seq<char>): (f: seq<char>)
    requires Stop(mem) >= 0
    ensures Complete(f)
  {
    StopComplete(mem);
    mem[..Stop(mem)]
  }

  /** One turn of the loop: it ends at the NUL, or the cursor moves on towards it. */
  lemma StopStep(mem: seq<char>, i: nat, e: int)
    requires i < |mem| && Stop(mem[i..]) == e - i >= 0
    ensures mem[i] == '\0' <==> i == e
    ensures mem[i] != '\0' && mem[i] != '%' ==> i + 1 <= e < |mem| && Stop(mem[i + 1..]) == e - (i + 1)
    ensures mem[i] == '%' ==> i + 2 <= e < |mem| && Stop(mem[i + 2..]) == e - (i + 2)
  {
    assert mem[i..][1..] == mem[i + 1..];
    if i + 2 <= |mem| { assert mem[i..][2..] == mem[i + 2..]; }
  }

  /** vsprintf's loop stops on the format's own NUL exactly when no % stands alone at the format's end;
      otherwise it goes on through whatever lies behind the NUL. */
  lemma {:induction false} LonePercent(f: seq<char>, rest: seq<char>)
    requires '\0' !in f
    ensures Stop(f + ['\0'] + rest) == if Complete(f) then |f| else Behind(|f| + 1, Stop(rest))
  {
    var mem := f + ['\0'] + rest;
    if f == [] {
    } else if f[0] != '%' {
      LonePercent(f[1..], rest);
      assert mem[1..] == f[1..] + ['\0'] + rest;
    } else if |f| == 1 {
      assert mem[2..] == rest;
    } else {
      LonePercent(f[2..], rest);
      assert mem[2..] == f[2..] + ['\0'] + rest;
    }
  }

  predicate TakesArgument(c: char) { c == 's' || c == 'c' || c == 'd' || c == 'x' }

  /** How many argument slots the format consumes. */
  function Slots(f: seq<char>): nat
    requires Complete(f)
  {
    if f == [] then 0 else if f[0] != '%' then Slots(f[1..])
    else (if TakesArgument(f[1]) then 1 else 0) + Slots(f[2..])
  }

  /** The string in front of the first NUL of s; behind the last character of s there is one in any case. */
  function CString(s: seq<char>): seq<char> {
    if s == [] || s[0] == '\0' then [] else [s[0]] + CString(s[1..])
  }

  /** It is the longest prefix without a NUL. */
  lemma {:induction false} CStringEnds(s: seq<char>)
    ensures CString(s) <= s && '\0' !in CString(s)
    ensures |CString(s)| < |s| ==> s[|CString(s)|] == '\0'
  {
    if s != [] && s[0] != '\0' {
      CStringEnds(s[1..]);
    }
  }

  /** What one conversion prints; an unknown one prints nothing. */
  function Converted(c: char, w: int, text: int -> seq<char>): seq<char>
    requires 0 <= w < WORD
  {
    if c == 's' then CString(text(w)) else if c == 'c' then [ByteChar(w)]
    else if c == 'd' then Decimal(w) else if c == 'x' then Digits(w, 16) else []
  }

  predicate Words32(args: seq<int>) { forall i | 0 <= i < |args| :: 0 <= args[i] < WORD }

  /** The text of a format and its argument slots; text maps a pointer to the characters it points at. */
  function Render(f: seq<char>, args: seq<int>, text: int -> seq<char>): seq<char>
    requires Complete(f) && Slots(f) <= |args| && Words32(args)
  {
    if f == [] then []
    else if f[0] != '%' then [f[0]] + Render(f[1..], args, text)
    else if TakesArgument(f[1]) then Converted(f[1], args[0], text) + Render(f[2..], args[1..], text)
    else Render(f[2..], args, text)
  }

  /** The rendering, one item at a time. */
  lemma RenderStep(f: seq<char>, xs: seq<int>, text: int -> seq<char>)
    requires f != [] && Complete(f) && Slots(f) <= |xs| && Words32(xs)
    ensures f[0] != '%' ==> Complete(f[1..]) && Slots(f[1..]) == Slots(f)
    ensures f[0] != '%' ==> Render(f, xs, text) == [f[0]] + Render(f[1..], xs, text)
    ensures f[0] == '%' ==> |f| >= 2 && Complete(f[2..])
    ensures f[0] == '%' && TakesArgument(f[1]) ==> |xs| >= 1 && Slots(f[2..]) + 1 == Slots(f) && Words32(xs[1..])
    ensures f[0] == '%' && TakesArgument(f[1]) ==> Render(f, xs, text) == Converted(f[1], xs[0], text) + Render(f[2..], xs[1..], text)
    ensures f[0] == '%' && !TakesArgument(f[1]) ==> Slots(f[2..]) == Slots(f) && Render(f, xs, text) == Render(f[2..], xs, text)
  {}

  // ----- what a format prints, said without the rendering -----

  /** ds is v written in the base, without a leading zero. */
  ghost predicate Numeral(ds: seq<char>, base: nat, v: int)
    requires IsBase(base)
  {
    ds != [] && (forall c | c in ds :: c in "0123456789ABCDEF"[..base]) && (ds[0] == '0' ==> |ds| == 1) && Parse(ds, base) == v
  }

  /** s is the decimal text of the word seen as a signed integer. */
  ghost predicate SignedNumeral(s: seq<char>, w: int) {
    if w < 0x8000_0000 then Numeral(s, 10, w) else s != [] && s[0] == '-' && Numeral(s[1..], 10, 0x1_0000_0000 - w)
  }

  /** What one conversion prints: %d the signed decimal text, %x the hexadecimal one, %c the low byte, %s the text
      up to its NUL. */
  ghost predicate Item(c: char, w: int, text: int -> seq<char>, s: seq<char>) {
    && (c == 'd' ==> SignedNumeral(s, w)) && (c == 'x' ==> Numeral(s, 16, w)) && (c == 'c' ==> s == [(w % 256) as char])
    && (c == 's' ==> s <= text(w) && '\0' !in s && (|s| < |text(w)| ==> text(w)[|s|] == '\0'))
  }

  /** s is what the format prints: plain characters as they are, each conversion with the next slot, and nothing
      for any other character behind a %. */
  ghost predicate Prints(f: seq<char>, args: seq<int>, text: int -> seq<char>, s: seq<char>)
    decreases |f|
  {
    if f == [] then s == []
    else if f[0] != '%' then s != [] && s[0] == f[0] && Prints(f[1..], args, text, s[1..])
    else && |f| >= 2
         && if f[1] in "cdsx" then args != [] && exists k | 0 <= k <= |s| ::
              Item(f[1], args[0], text, s[..k]) && Prints(f[2..], args[1..], text, s[k..])
            else Prints(f[2..], args, text, s)
  }

  lemma DigitOf(c: char, base: nat) returns (m: nat)
    requires IsBase(base) && c in "0123456789ABCDEF"[..base]
    ensures m < base && c == DigitChar(m) && DigitValue(c) == m && (c == '0' <==> m == 0)
  {
    var all := "0123456789ABCDEF";
    m :| 0 <= m < base && all[..base][m] == c;
    DigitBack(m);
  }

  lemma QuotientIs(x: int, d: int, q: int, r: int)
    requires d > 0 && x == q * d + r && 0 <= r < d
    ensures x / d == q && x % d == r && (q > 0 ==> x > 0)
  {
    var e := x / d;
    assert e > q ==> e * d >= (q + 1) * d;
    assert e < q ==> (e + 1) * d <= q * d;
    assert q > 0 ==> q * d >= d;
  }

  lemma DivideBack(q: int, base: nat, m: nat)
    requires IsBase(base) && m < base
    ensures (q * base + m) / base == q && (q * base + m) % base == m && (q > 0 ==> q * base + m > 0)
  {
    QuotientIs(q * base + m, base, q, m);
  }

  /** A number has one numeral. */
  lemma {:induction false} NumeralUnique(ds: seq<char>, base: nat, v: int)
    requires IsBase(base) && Numeral(ds, base, v)
    ensures v >= 0 && ds == Digits(v, base) && (v == 0 <==> ds[0] == '0')
    decreases |ds|
  {
    hide DigitChar, DigitValue, Digits, Numeral, Parse;
    var m := LastDigit(ds, base, v);
    var front := ds[..|ds| - 1];
    if front == [] {
      DivideBack(0, base, m);
      DigitsStep(v, base, 0, m);
    } else {
      var q := Parse(front, base);
      FrontNumeral(ds, base, v);
      NumeralUnique(front, base, q);
      DivideBack(q, base, m);
      DigitsStep(v, base, q, m);
    }
  }

  lemma LastDigit(ds: seq<char>, base: nat, v: int) returns (m: nat)
    requires IsBase(base) && Numeral(ds, base, v)
    ensures |ds| >= 1 && m < base && ds == ds[..|ds| - 1] + [DigitChar(m)] && DigitValue(ds[|ds| - 1]) == m
    ensures |ds| == 1 ==> v == m && (m == 0 <==> ds[0] == '0')
  {
    hide DigitChar, DigitValue;
    assert ds[|ds| - 1] in ds;
    m := DigitOf(ds[|ds| - 1], base);
    assert |ds| == 1 ==> Parse(ds[..0], base) == 0;
  }

  lemma FrontNumeral(ds: seq<char>, base: nat, v: int)
    requires IsBase(base) && Numeral(ds, base, v) && |ds| >= 2
    ensures var front := ds[..|ds| - 1];
            Numeral(front, base, Parse(front, base)) && front[0] == ds[0] != '0' && v == Parse(front, base) * base + DigitValue(ds[|ds| - 1])
  {
    hide DigitValue;
    var front := ds[..|ds| - 1];
    forall c | c in front ensures c in "0123456789ABCDEF"[..base] {
      assert c in ds;
    }
  }

  lemma DigitsNumeral(v: nat, base: nat)
    requires IsBase(base)
    ensures Numeral(Digits(v, base), base, v)
  {
    hide Digits;
    DigitsParse(v, base);
    NoLeadingZero(v, base);
    forall i | 0 <= i < |Digits(v, base)| ensures Digits(v, base)[i] in "0123456789ABCDEF"[..base] {
      DigitsAreDigits(v, base, i);
    }
  }

  lemma {:induction false} DigitsAreDigits(v: nat, base: nat, i: nat)
    requires IsBase(base) && i < |Digits(v, base)|
    ensures Digits(v, base)[i] in "0123456789ABCDEF"[..base]
  {
    hide Digits;
    var q, r := Unfold(v, base);
    DigitBack(r);
    assert "0123456789ABCDEF"[..base][r] == DigitChar(r);
    if q != 0 && i < |Digits(q, base)| {
      DigitsAreDigits(q, base, i);
    }
  }

  lemma NumeralExactly(s: seq<char>, base: nat, v: nat)
    requires IsBase(base)
    ensures Numeral(s, base, v) <==> s == Digits(v, base)
  {
    hide Numeral, Digits;
    DigitsNumeral(v, base);
    if Numeral(s, base, v) { NumeralUnique(s, base, v); }
  }

  lemma CStringExactly(s: seq<char>, t: seq<char>)
    ensures s <= t && '\0' !in s && (|s| < |t| ==> t[|s|] == '\0') <==> s == CString(t)
  {
    hide CString;
    var r := CString(t);
    CStringEnds(t);
    assert |s| < |r| ==> r[|s|] == t[|s|] && r[|s|] in r;
    assert |r| < |s| && s <= t ==> s[|r|] == t[|r|] && s[|r|] in s;
  }

  lemma SignedExactly(s: seq<char>, w: int)
    requires 0 <= w < WORD
    ensures SignedNumeral(s, w) <==> s == Decimal(w)
  {
    hide Numeral, Digits;
    if w < 0x8000_0000 {
      NumeralExactly(s, 10, w);
    } else if s != [] {
      NumeralExactly(s[1..], 10, 0x1_0000_0000 - w);
      assert s == [s[0]] + s[1..];
      assert Negated(w) == 0x1_0000_0000 - w;
    }
  }

  lemma ItemExactly(c: char, w: int, text: int -> seq<char>, s: seq<char>)
    requires 0 <= w < WORD && c in "cdsx"
    ensures TakesArgument(c) && (Item(c, w, text, s) <==> s == Converted(c, w, text))
  {
    hide SignedNumeral, Numeral, Digits, Decimal, CString;
    SignedExactly(s, w);
    NumeralExactly(s, 16, w);
    CStringExactly(s, text(w));
  }

  lemma ArgumentChars(c: char)
    ensures TakesArgument(c) <==> c in "cdsx"
  {}

  /** The rendering is the one text that the format prints. */
  lemma {:induction false} PrintsExactly(f: seq<char>, args: seq<int>, text: int -> seq<char>, s: seq<char>)
    requires Complete(f) && Slots(f) <= |args| && Words32(args)
    ensures Prints(f, args, text, s) <==> s == Render(f, args, text)
    decreases |f|
  {
    hide Render, Slots, Complete, Converted, TakesArgument, Words32, Item;
    if f == [] {
      assert Render(f, args, text) == [] by { NothingRendered(args, text); }
    } else {
      RenderStep(f, args, text);
      if f[0] != '%' {
        if s != [] {
          PrintsExactly(f[1..], args, text, s[1..]);
          assert s == [s[0]] + s[1..];
        }
      } else {
        ArgumentChars(f[1]);
        if TakesArgument(f[1]) {
          ConversionExactly(f, args, text, s);
        } else {
          PrintsExactly(f[2..], args, text, s);
        }
      }
    }
  }

  lemma NothingRendered(args: seq<int>, text: int -> seq<char>)
    requires Words32(args)
    ensures Complete([]) && Slots([]) == 0 && Render([], args, text) == []
  {}

  lemma ConversionExactly(f: seq<char>, args: seq<int>, text: int -> seq<char>, s: seq<char>)
    requires Complete(f) && Slots(f) <= |args| && Words32(args) && |f| >= 2 && f[0] == '%' && f[1] in "cdsx"
    ensures Prints(f, args, text, s) <==> s == Render(f, args, text)
    decreases |f|, 0
  {
    hide Render, Slots, Complete, Converted, TakesArgument, Item;
    RenderStep(f, args, text);
    ArgumentChars(f[1]);
    var t := Converted(f[1], args[0], text);
    if s == Render(f, args, text) {
      ItemExactly(f[1], args[0], text, s[..|t|]);
      PrintsExactly(f[2..], args[1..], text, s[|t|..]);
      assert s[..|t|] == t && s[|t|..] == Render(f[2..], args[1..], text);
    }
    if Prints(f, args, text, s) {
      var k :| 0 <= k <= |s| && Item(f[1], args[0], text, s[..k]) && Prints(f[2..], args[1..], text, s[k..]);
      ItemExactly(f[1], args[0], text, s[..k]);
      PrintsExactly(f[2..], args[1..], text, s[k..]);
      assert s == s[..k] + s[k..];
    }
  }

  // ----- vsprintf -----

  /** One conversion, written at out. strcpy's NUL may land one place behind the text. */
  method Convert(c: char, w: int, buf: array<char>, out: nat, text: int -> seq<char>) returns (out': nat)
    requires 0 <= w < WORD && TakesArgument(c) && out + |Converted(c, w, text)| + 1 <= buf.Length
    modifies buf
    ensures out' == out + |Converted(c, w, text)|
    ensures buf[..out'] == old(buf[..out]) + Converted(c, w, text)
    ensures buf[out' + 1..] == old(buf[out' + 1..])
  {
    ghost var was := buf[..];
    if c == 's' {
      out' := Strcpy(buf, out, text(w));
    } else if c == 'c' {
      buf[out] := ByteChar(w);
      out' := out + 1;
    } else if c == 'd' {
      out' := PutDecimal(w, buf, out);
      WrittenParts(was, out, Decimal(w));
    } else {
      out' := Itoa(w, buf, out, 16);
      WrittenParts(was, out, Digits(w, 16));
    }
  }

  lemma WrittenParts(was: seq<char>, out: nat, s: seq<char>)
    requires out + |s| + 1 <= |was|
    ensures Written(was, out, s)[..out + |s|] == was[..out] + s
    ensures Written(was, out, s)[out + |s| + 1..] == was[out + |s| + 1..]
  {}

  /** The d branch: the sign, then the digits of the absolute value in 32-bit arithmetic. */
  method PutDecimal(w: int, buf: array<char>, out: nat) returns (out': nat)
    requires 0 <= w < WORD && out + |Decimal(w)| <= buf.Length
    modifies buf
    ensures out' == out + |Decimal(w)| && buf[..] == Written(old(buf[..]), out, Decimal(w))
  {
    ghost var was := buf[..];
    if Signed(w) < 0 {
      buf[out] := '-';
      assert buf[..] == was[out := '-'];
      out' := Itoa(Negated(w), buf, out + 1, 10);
      SignWritten(was, out, Digits(Negated(w), 10));
    } else {
      out' := Itoa(w, buf, out, 10);
    }
  }

  lemma SignWritten(was: seq<char>, out: nat, ds: seq<char>)
    requires out + 1 + |ds| <= |was|
    ensures Written(was[out := '-'], out + 1, ds) == Written(was, out, "-" + ds)
  {}

  /** strcpy, and strlen's step of the cursor: the text up to its NUL, and a NUL. */
  method Strcpy(buf: array<char>, out: nat, s: seq<char>) returns (out': nat)
    requires out + |CString(s)| + 1 <= buf.Length
    modifies buf
    ensures out' == out + |CString(s)| && buf[..out'] == old(buf[..out]) + CString(s) && buf[out'] == '\0'
    ensures buf[out' + 1..] == old(buf[out' + 1..])
  {
    ghost var was, t := buf[..], CString(s);
    CStringEnds(s);
    var i := 0;
    while i < |s| && s[i] != '\0'
      invariant i <= |t| && buf[..out + i] == was[..out] + t[..i] && buf[out + i..] == was[out + i..]
      decreases |s| - i
    {
      assert i < |t| && t[i] == s[i];
      ghost var b := buf[..];
      buf[out + i] := s[i];
      assert buf[..] == b[out + i := s[i]];
      assert buf[out + i + 1..] == b[out + i..][1..];
      i := i + 1;
    }
    assert i == |t| && t[..i] == t;
    buf[out + i] := '\0';
    out' := out + i;
  }

  /** f and xs are left to print: what stands before out, and their rendering, are the whole text. */
  ghost predicate Printing(b: seq<char>, out: nat, f: seq<char>, xs: seq<int>, text: int -> seq<char>, all: seq<char>, was: seq<char>) {
    && |b| == |was| && |all| + 1 <= |b| && out <= |all|
    && Complete(f) && Slots(f) <= |xs| && Words32(xs)
    && b[..out] + Render(f, xs, text) == all && b[out + 1..] == was[out + 1..]
  }

  lemma PlainStep(b: seq<char>, out: nat, f: seq<char>, xs: seq<int>, text: int -> seq<char>, all: seq<char>, was: seq<char>)
    requires Printing(b, out, f, xs, text, all, was) && f != [] && f[0] != '%'
    ensures out < |b| && Printing(b[out := f[0]], out + 1, f[1..], xs, text, all, was)
  {
    hide Converted, TakesArgument, Words32, Render, Slots, Complete;
    RenderStep(f, xs, text);
    var b' := b[out := f[0]];
    assert b'[..out + 1] == b[..out] + [f[0]];
    assert b'[out + 2..] == b[out + 1..][1..] && was[out + 2..] == was[out + 1..][1..];
  }

  lemma ConvertStep(b: seq<char>, b': seq<char>, out: nat, f: seq<char>, xs: seq<int>, text: int -> seq<char>, all: seq<char>, was: seq<char>)
    requires Printing(b, out, f, xs, text, all, was) && f != [] && f[0] == '%' && TakesArgument(f[1])
    ensures |xs| >= 1 && 0 <= xs[0] < WORD && out + |Converted(f[1], xs[0], text)| + 1 <= |b|
    ensures var out' := out + |Converted(f[1], xs[0], text)|;
            && |b'| == |b| && b'[..out'] == b[..out] + Converted(f[1], xs[0], text) && b'[out' + 1..] == b[out' + 1..]
            ==> Printing(b', out', f[2..], xs[1..], text, all, was)
  {
    hide Converted, TakesArgument;
    var s := Converted(f[1], xs[0], text);
    var out' := out + |s|;
    assert Render(f, xs, text) == s + Render(f[2..], xs[1..], text);
    assert |all| == out + |Render(f, xs, text)|;
    assert b[out' + 1..] == b[out + 1..][|s|..] && was[out' + 1..] == was[out + 1..][|s|..];
  }

  /** The next conversion of the format, with its argument. */
  method ConvertNext(c: char, w: int, buf: array<char>, out: nat, text: int -> seq<char>,
                     ghost f: seq<char>, ghost xs: seq<int>, ghost all: seq<char>, ghost was: seq<char>) returns (out': nat)
    requires Printing(buf[..], out, f, xs, text, all, was) && |f| >= 2 && f[0] == '%' && f[1] == c && TakesArgument(c)
    requires |xs| >= 1 && xs[0] == w
    modifies buf
    ensures Printing(buf[..], out', f[2..], xs[1..], text, all, was)
  {
    hide Printing, Converted, TakesArgument;
    ghost var b := buf[..];
    ConvertStep(b, b, out, f, xs, text, all, was);
    out' := Convert(c, w, buf, out, text);
    ConvertStep(b, buf[..], out, f, xs, text, all, was);
  }

  lemma SkipStep(b: seq<char>, out: nat, f: seq<char>, xs: seq<int>, text: int -> seq<char>, all: seq<char>, was: seq<char>)
    requires Printing(b, out, f, xs, text, all, was) && f != [] && f[0] == '%' && !TakesArgument(f[1])
    ensures Printing(b, out, f[2..], xs, text, all, was)
  {
    hide Converted, TakesArgument, Words32;
  }

  lemma LastStep(b: seq<char>, out: nat, xs: seq<int>, text: int -> seq<char>, all: seq<char>, was: seq<char>)
    requires Printing(b, out, [], xs, text, all, was)
    ensures out == |all| < |b| && b[..out] == all && b[out + 1..] == was[out + 1..]
  {}

  /** vsprintf. mem holds the characters from the format on, as far as the loop reads them: behind a format
      that ends in a lone % it reads on. The buffer holds the rendering of what the loop has read, and a NUL. */
  method Vsprintf(buf: array<char>, mem: seq<char>, args: seq<int>, text: int -> seq<char>) returns (n: nat)
    requires Stop(mem) >= 0 && Slots(Format(mem)) <= |args| && Words32(args)
    requires |Render(Format(mem), args, text)| + 1 <= buf.Length
    modifies buf
    ensures n == |Render(Format(mem), args, text)| && buf[..n] == Render(Format(mem), args, text) && buf[n] == '\0'
    ensures buf[n + 1..] == old(buf[n + 1..])
    ensures Prints(Format(mem), args, text, buf[..n])
  {
    ghost var e := Stop(mem);
    ghost var format := Format(mem);
    ghost var was, all := buf[..], Render(format, args, text);
    var out: nat, i: nat, ap: nat := 0, 0, 0;
    assert format[i..] == format && args[ap..] == args && mem[i..] == mem;
    assert Printing(buf[..], out, format[i..], args[ap..], text, all, was);
    hide Printing, Render, Slots, Converted, Words32, TakesArgument, Complete, Stop, Prints;
    while mem[i] != '\0'
      invariant i <= e < |mem| && Stop(mem[i..]) == e - i && ap <= |args|
      invariant Printing(buf[..], out, format[i..], args[ap..], text, all, was)
      decreases e - i
    {
      StopStep(mem, i, e);
      var c := mem[i];
      if c != '%' {
        PutPlain(c, buf, out, text, format[i..], args[ap..], all, was);
        assert format[i..][1..] == format[i + 1..];
        out, i := out + 1, i + 1;
      } else {
        assert format[i..][2..] == format[i + 2..];
        c := mem[i + 1];
        if TakesArgument(c) {
          ConvertStep(buf[..], buf[..], out, format[i..], args[ap..], text, all, was);
          assert args[ap..][1..] == args[ap + 1..];
          out := ConvertNext(c, args[ap], buf, out, text, format[i..], args[ap..], all, was);
          ap := ap + 1;
        } else {
          SkipStep(buf[..], out, format[i..], args[ap..], text, all, was);
        }
        i := i + 2;
      }
    }
    StopStep(mem, i, e);
    assert format[i..] == [];
    LastStep(buf[..], out, args[ap..], text, all, was);
    buf[out] := '\0';
    n := out;
    PrintsExactly(format, args, text, buf[..n]);
  }

  /** Plain text. */
  method PutPlain(c: char, buf: array<char>, out: nat, text: int -> seq<char>,
                  ghost f: seq<char>, ghost xs: seq<int>, ghost all: seq<char>, ghost was: seq<char>)
    requires Printing(buf[..], out, f, xs, text, all, was) && f != [] && f[0] == c && c != '%'
    modifies buf
    ensures Printing(buf[..], out + 1, f[1..], xs, text, all, was)
  {
    hide Printing;
    ghost var b := buf[..];
    PlainStep(b, out, f, xs, text, all, was);
    buf[out] := c;
    assert buf[..] == b[out := c];
  }

  /** A format without % prints itself; %% prints nothing. */
  lemma {:induction false} PlainText(f: seq<char>, args: seq<int>, text: int -> seq<char>)
    requires '%' !in f && Words32(args)
    ensures Complete(f) && Slots(f) == 0 && Render(f, args, text) == f
  {
    if f != [] {
      PlainText(f[1..], args, text);
    }
  }

  lemma {:induction false} CompleteMore(f: seq<char>, g: seq<char>)
    requires Complete(f) && Complete(g)
    ensures Complete(f + g) && Slots(f + g) == Slots(f) + Slots(g)
  {
    if f == [] {
      assert f + g == g;
    } else if f[0] != '%' {
      CompleteMore(f[1..], g);
      assert (f + g)[1..] == f[1..] + g;
    } else {
      CompleteMore(f[2..], g);
      assert (f + g)[2..] == f[2..] + g;
    }
  }

  lemma SlotsSplit(args: seq<int>, k: nat)
    requires k + 1 <= |args|
    ensures args[1..][k..] == args[k + 1..]
  {}

  lemma Regroup(a: seq<char>, b: seq<char>, c: seq<char>)
    ensures a + (b + c) == (a + b) + c
  {}

  /** Renderings compose: the second format goes on with the slots the first one left. */
  lemma {:induction false} RenderAppend(f: seq<char>, g: seq<char>, args: seq<int>, text: int -> seq<char>)
    requires Complete(f) && Complete(g) && Slots(f) + Slots(g) <= |args| && Words32(args)
    ensures Complete(f + g) && Slots(f + g) == Slots(f) + Slots(g)
    ensures Render(f + g, args, text) == Render(f, args, text) + Render(g, args[Slots(f)..], text)
    decreases |f|
  {
    CompleteMore(f, g);
    if f == [] {
      assert f + g == g && args[0..] == args;
    } else if f[0] != '%' {
      AppendPlain(f, g, args, text);
    } else {
      AppendConverted(f, g, args, text);
    }
  }

  lemma AppendPlain(f: seq<char>, g: seq<char>, args: seq<int>, text: int -> seq<char>)
    requires Complete(f) && Complete(g) && Slots(f) + Slots(g) <= |args| && Words32(args) && f != [] && f[0] != '%'
    ensures Complete(f + g) && Slots(f + g) == Slots(f) + Slots(g)
    ensures Render(f + g, args, text) == Render(f, args, text) + Render(g, args[Slots(f)..], text)
    decreases |f|, 0
  {
    hide Render, Slots, Complete, Converted, TakesArgument;
    AppendStep(f, g, args, text);
    RenderStep(f, args, text);
    RenderAppend(f[1..], g, args, text);
    Regroup([f[0]], Render(f[1..], args, text), Render(g, args[Slots(f)..], text));
  }

  lemma AppendConverted(f: seq<char>, g: seq<char>, args: seq<int>, text: int -> seq<char>)
    requires Complete(f) && Complete(g) && Slots(f) + Slots(g) <= |args| && Words32(args) && f != [] && f[0] == '%'
    ensures Complete(f + g) && Slots(f + g) == Slots(f) + Slots(g)
    ensures Render(f + g, args, text) == Render(f, args, text) + Render(g, args[Slots(f)..], text)
    decreases |f|, 0
  {
    hide Render, Slots, Complete, Converted, TakesArgument;
    AppendStep(f, g, args, text);
    RenderStep(f, args, text);
    if TakesArgument(f[1]) {
      RenderAppend(f[2..], g, args[1..], text);
      SlotsSplit(args, Slots(f[2..]));
      Regroup(Converted(f[1], args[0], text), Render(f[2..], args[1..], text), Render(g, args[Slots(f)..], text));
    } else {
      RenderAppend(f[2..], g, args, text);
    }
  }

  /** The first item of f is the first item of f + g. */
  lemma AppendStep(f: seq<char>, g: seq<char>, args: seq<int>, text: int -> seq<char>)
    requires f != [] && Complete(f) && Complete(g) && Slots(f) + Slots(g) <= |args| && Words32(args)
    ensures Complete(f + g) && Slots(f + g) == Slots(f) + Slots(g)
    ensures f[0] != '%' ==> Complete(f[1..] + g) && Slots(f[1..] + g) <= |args| && Render(f + g, args, text) == [f[0]] + Render(f[1..] + g, args, text)
    ensures f[0] == '%' ==> |f| >= 2 && Complete(f[2..] + g)
    ensures f[0] == '%' && TakesArgument(f[1]) ==> |args| >= 1 && Slots(f[2..] + g) <= |args[1..]| && Words32(args[1..])
    ensures f[0] == '%' && TakesArgument(f[1]) ==> Render(f + g, args, text) == Converted(f[1], args[0], text) + Render(f[2..] + g, args[1..], text)
    ensures f[0] == '%' && !TakesArgument(f[1]) ==> Slots(f[2..] + g) <= |args| && Render(f + g, args, text) == Render(f[2..] + g, args, text)
  {
    hide Render, Slots, Complete, Converted, TakesArgument, Words32;
    CompleteMore(f, g);
    RenderStep(f, args, text);
    RenderStep(f + g, args, text);
    if f[0] != '%' { assert (f + g)[1..] == f[1..] + g; } else { assert (f + g)[2..] == f[2..] + g; }
  }
}
