/** Reading a `Path` value out of a prefix's own `user.reg`: the string after
    the `=`, its escapes undone, and what is refused of what it then says. */
module UserReg {
  import opened Wrappers
  import opened Text
  import opened RegQuery

  // ---------------------------------------------------------------- the text

  /** `char::is_control` */
  predicate IsControl(c: char) {
    c as int < 0x20 || 0x7F <= c as int < 0xA0
  }

  predicate HasControl(s: string) {
    exists i :: 0 <= i < |s| && IsControl(s[i])
  }

  /** What is made of a string once it is decoded. */
  function ReadText(text: string): Reading {
    if text == "" then Other(NoPath)
    else if '\n' in text || '\r' in text then Other(LineBreak)
    else if HasControl(text) then Other(Control)
    else Plain(text)
  }

  // ------------------------------------------------------------- the escapes

  datatype Radix = Hex | Octal

  function Base(radix: Radix): nat {
    if radix == Hex then 16 else 8
  }

  function MaxDigits(radix: Radix): nat {
    if radix == Hex then 4 else 3
  }

  predicate IsDigit(radix: Radix, c: char) {
    match radix
    case Hex => '0' <= c <= '9' || 'a' <= c <= 'f' || 'A' <= c <= 'F'
    case Octal => '0' <= c <= '7'
  }

  function DigitValue(c: char): nat {
    if '0' <= c <= '9' then c as int - '0' as int
    else if 'a' <= c <= 'f' then c as int - 'a' as int + 10
    else if 'A' <= c <= 'F' then c as int - 'A' as int + 10
    else 0
  }

  predicate AllDigits(radix: Radix, s: string) {
    forall i :: 0 <= i < |s| ==> IsDigit(radix, s[i])
  }

  function Number(radix: Radix, digits: string): nat {
    if digits == "" then 0
    else Number(radix, DropLast(digits)) * Base(radix) + DigitValue(digits[|digits| - 1])
  }

  /** `char::from_u32` of a UTF-16 code unit: half of a pair is no character. */
  function CharOf(unit: nat): Option<char> {
    if unit < 0xD800 || 0xE000 <= unit < 0x1_0000 then Some(unit as char) else None
  }

  /** The escapes of one letter. */
  function LetterMeaning(e: char): Option<char> {
    match e
    case '\\' => Some('\\')
    case '"' => Some('"')
    case '[' => Some('[')
    case ']' => Some(']')
    case 'a' => Some(7 as char)
    case 'b' => Some(8 as char)
    case 't' => Some('\t')
    case 'n' => Some('\n')
    case 'v' => Some(11 as char)
    case 'f' => Some(12 as char)
    case 'r' => Some('\r')
    case 'e' => Some(27 as char)
    case _ => None
  }

  /** How many digits stand at the front, up to the most an escape can hold. */
  function DigitsAt(radix: Radix, s: string, max: nat): (n: nat)
    ensures n <= |s| && n <= max && AllDigits(radix, s[..n])
    ensures n < max && n < |s| ==> !IsDigit(radix, s[n])
    decreases max
  {
    if max == 0 || s == "" || !IsDigit(radix, s[0]) then 0
    else
      var n := DigitsAt(radix, s[1..], max - 1);
      assert s[..n + 1] == [s[0]] + s[1..][..n];
      n + 1
  }

  function Prepend(text: string, rest: Option<string>): Option<string> {
    match rest
    case None => None
    case Some(t) => Some(text + t)
  }

  /** What follows the escape's mark is read as digits, and then the rest. */
  function UnescapeDigits(radix: Radix, s: string): Option<string>
    decreases |s|, 0
  {
    var n := DigitsAt(radix, s, MaxDigits(radix));
    if n == 0 then None
    else
      match CharOf(Number(radix, s[..n]))
      case None => None
      case Some(c) => Prepend([c], Unescaped(s[n..]))
  }

  /** `unescape` */
  function Unescaped(s: string): Option<string>
    decreases |s|, 1
  {
    if s == "" then Some("")
    else if s[0] != '\\' then Prepend([s[0]], Unescaped(s[1..]))
    else if |s| == 1 then None
    else if LetterMeaning(s[1]).Some? then Prepend([LetterMeaning(s[1]).value], Unescaped(s[2..]))
    else if s[1] == 'x' then UnescapeDigits(Hex, s[2..])
    else if IsDigit(Octal, s[1]) then UnescapeDigits(Octal, s[1..])
    else None
  }

  lemma PrependTwice(a: string, b: string, rest: Option<string>)
    ensures Prepend(a, Prepend(b, rest)) == Prepend(a + b, rest)
    ensures Prepend("", rest) == rest
  {
    if rest.Some? {
      assert a + (b + rest.value) == (a + b) + rest.value;
      assert "" + rest.value == rest.value;
    }
  }

  lemma {:induction false} DigitsGrow(radix: Radix, s: string, max: nat, n: nat)
    requires n <= |s| && n <= max && AllDigits(radix, s[..n])
    requires n == max || n == |s| || !IsDigit(radix, s[n])
    ensures DigitsAt(radix, s, max) == n
    decreases max
  {
    if n > 0 {
      assert s[..n][0] == s[0] && s[1..][..n - 1] == s[..n][1..];
      DigitsGrow(radix, s[1..], max - 1, n - 1);
    }
  }

  /** `escape_digits`: the digits from `start` on, greedily; `seeded` of them
      were named by the escape itself. */
  method EscapeDigits(radix: Radix, s: string, start: nat, seeded: nat)
    returns (unit: Option<char>, end: nat)
    requires start + seeded <= |s| && seeded <= 1
    requires AllDigits(radix, s[start..start + seeded])
    ensures end == start + DigitsAt(radix, s[start..], MaxDigits(radix)) <= |s|
    ensures unit == if end == start then None else CharOf(Number(radix, s[start..end]))
  {
    end := start + seeded;
    while end - start < MaxDigits(radix) && end < |s| && IsDigit(radix, s[end])
      invariant start <= end <= |s| && end - start <= MaxDigits(radix)
      invariant AllDigits(radix, s[start..end])
    {
      assert s[start..end + 1] == s[start..end] + [s[end]];
      end := end + 1;
    }
    assert s[start..][..end - start] == s[start..end];
    DigitsGrow(radix, s[start..], MaxDigits(radix), end - start);
    unit := if end == start then None else CharOf(Number(radix, s[start..end]));
  }

  lemma NumericUnfolds(t: string)
    requires |t| >= 2 && t[0] == '\\' && LetterMeaning(t[1]).None?
    ensures t[1] == 'x' ==> Unescaped(t) == UnescapeDigits(Hex, t[2..])
    ensures IsDigit(Octal, t[1]) ==> Unescaped(t) == UnescapeDigits(Octal, t[1..])
    ensures t[1] != 'x' && !IsDigit(Octal, t[1]) ==> Unescaped(t) == None
  {
  }

  lemma DigitsUnfold(radix: Radix, s: string, start: nat, end: nat)
    requires start <= end <= |s| && end == start + DigitsAt(radix, s[start..], MaxDigits(radix))
    ensures var unit := if end == start then None else CharOf(Number(radix, s[start..end]));
      UnescapeDigits(radix, s[start..])
      == if unit.None? then None else Prepend([unit.value], Unescaped(s[end..]))
  {
    assert s[start..][..end - start] == s[start..end] && s[start..][end - start..] == s[end..];
  }

  /** A numeric escape whose backslash is at `at`: its character, and where the
      reading goes on. */
  method NumericEscape(s: string, at: nat) returns (unit: Option<char>, end: nat)
    requires at + 2 <= |s| && s[at] == '\\' && LetterMeaning(s[at + 1]).None?
    ensures at < end <= |s|
    ensures Unescaped(s[at..])
         == if unit.None? then None else Prepend([unit.value], Unescaped(s[end..]))
  {
    var e := s[at + 1];
    NumericUnfolds(s[at..]);
    assert s[at..][1..] == s[at + 1..] && s[at..][2..] == s[at + 2..];
    if e == 'x' {
      unit, end := EscapeDigits(Hex, s, at + 2, 0);
      DigitsUnfold(Hex, s, at + 2, end);
    } else if IsDigit(Octal, e) {
      assert s[at + 1..at + 2] == [e];
      unit, end := EscapeDigits(Octal, s, at + 1, 1);
      DigitsUnfold(Octal, s, at + 1, end);
    } else {
      unit, end := None, |s|;
    }
  }

  method Unescape(s: string) returns (r: Option<string>)
    ensures r == Unescaped(s)
  {
    var out := "";
    var i := 0;
    assert s[0..] == s;
    PrependTwice("", "", Unescaped(s));
    while i < |s|
      invariant i <= |s|
      invariant Unescaped(s) == Prepend(out, Unescaped(s[i..]))
    {
      assert s[i..][1..] == s[i + 1..] && (i + 2 <= |s| ==> s[i..][2..] == s[i + 2..]);
      var next: char, end: nat;
      if s[i] != '\\' {
        next, end := s[i], i + 1;
      } else if i + 1 == |s| {
        return None;
      } else if LetterMeaning(s[i + 1]).Some? {
        next, end := LetterMeaning(s[i + 1]).value, i + 2;
      } else {
        var unit;
        unit, end := NumericEscape(s, i);
        if unit.None? {
          return None;
        }
        next := unit.value;
      }
      PrependTwice(out, [next], Unescaped(s[end..]));
      out := out + [next];
      i := end;
    }
    assert s[i..] == "" && out + "" == out;
    return Some(out);
  }

  // ------------------------------------------------------- the quoted string

  /** Where the closing quote is, `|s|` when there is none: a backslash takes
      whatever follows it along. */
  function EndOfString(s: string): (n: nat)
    ensures n < |s| ==> s[n] == '"'
  {
    if s == "" || s[0] == '"' then 0
    else if s[0] == '\\' then (if |s| == 1 then 2 else EndOfString(s[2..]) + 2)
    else EndOfString(s[1..]) + 1
  }

  /** `end_of_unescaped`, for a quote. */
  method FindEndOfString(s: string) returns (n: nat)
    ensures n == EndOfString(s)
  {
    n := 0;
    assert s[0..] == s;
    while n < |s|
      invariant EndOfString(s) == if n <= |s| then n + EndOfString(s[n..]) else n
      decreases |s| - n
    {
      assert s[n..][1..] == s[n + 1..] && (n + 2 <= |s| ==> s[n..][2..] == s[n + 2..]);
      if s[n] == '"' {
        return;
      }
      n := if s[n] == '\\' then n + 2 else n + 1;
    }
  }

  predicate AsciiBlank(s: string) {
    forall i :: 0 <= i < |s| ==>
      s[i] == ' ' || s[i] == '\t' || s[i] == '\n' || s[i] == '\r' || s[i] as int == 12
  }

  /** What a closed string is read as, `after` being what follows it. */
  function ReadClosed(raw: string, after: string): Reading {
    if !AsciiBlank(after) then Other(FileRejected)
    else
      match Unescaped(raw)
      case None => Other(FileRejected)
      case Some(text) => ReadText(text)
  }

  /** `read_string`, of what follows the opening quote. */
  function ReadString(body: string): Reading {
    var n := EndOfString(body);
    if n >= |body| then Other(FileRejected) else ReadClosed(body[..n], body[n + 1..])
  }

  // ----------------------------------------------------- every way to spell it

  /** One character of a value, as the file may spell it. */
  datatype Spelling = Bare(c: char) | Lettered(e: char) | Numbered(radix: Radix, digits: string)

  predicate ValidSpelling(item: Spelling) {
    match item
    case Bare(c) => c != '\\' && c != '"'
    case Lettered(e) => LetterMeaning(e).Some?
    case Numbered(radix, digits) =>
      && 1 <= |digits| <= (if radix == Hex then 4 else 3) && AllDigits(radix, digits)
      && CharOf(Number(radix, digits)).Some?
  }

  function Meaning(item: Spelling): char
    requires ValidSpelling(item)
  {
    match item
    case Bare(c) => c
    case Lettered(e) => LetterMeaning(e).value
    case Numbered(radix, digits) => CharOf(Number(radix, digits)).value
  }

  function SpelledOne(item: Spelling): string {
    match item
    case Bare(c) => [c]
    case Lettered(e) => ['\\', e]
    case Numbered(Hex, digits) => ['\\', 'x'] + digits
    case Numbered(Octal, digits) => ['\\'] + digits
  }

  function SpelledAll(items: seq<Spelling>): string {
    if items == [] then "" else SpelledOne(items[0]) + SpelledAll(items[1..])
  }

  predicate Parted(item: Spelling, next: Spelling) {
    item.Numbered? && |item.digits| < MaxDigits(item.radix) && next.Bare? ==>
      !IsDigit(item.radix, next.c)
  }

  /** The digits of an escape do not run on into what follows it: there are as
      many as it can hold, or no digit follows. */
  predicate NoRunOn(items: seq<Spelling>) {
    forall i :: 0 <= i < |items| ==>
      ValidSpelling(items[i]) && (i + 1 < |items| ==> Parted(items[i], items[i + 1]))
  }

  function MeaningOfAll(items: seq<Spelling>): string
    requires NoRunOn(items)
  {
    if items == [] then ""
    else
      assert NoRunOn(items[1..]);
      [Meaning(items[0])] + MeaningOfAll(items[1..])
  }

  lemma SpelledStarts(items: seq<Spelling>)
    requires items != []
    ensures SpelledAll(items) != ""
    ensures SpelledAll(items)[0] == if items[0].Bare? then items[0].c else '\\'
  {
  }

  lemma NumberedRead(radix: Radix, digits: string, rest: string)
    requires ValidSpelling(Numbered(radix, digits))
    requires |digits| == MaxDigits(radix) || rest == "" || !IsDigit(radix, rest[0])
    ensures UnescapeDigits(radix, digits + rest)
         == Prepend([Meaning(Numbered(radix, digits))], Unescaped(rest))
  {
    var s := digits + rest;
    assert s[..|digits|] == digits && s[|digits|..] == rest;
    DigitsGrow(radix, s, MaxDigits(radix), |digits|);
  }

  lemma BareRead(c: char, rest: string)
    requires c != '\\'
    ensures Unescaped([c] + rest) == Prepend([c], Unescaped(rest))
  {
    assert ([c] + rest)[1..] == rest;
  }

  lemma LetteredRead(e: char, rest: string)
    requires LetterMeaning(e).Some?
    ensures Unescaped(['\\', e] + rest) == Prepend([LetterMeaning(e).value], Unescaped(rest))
  {
    assert (['\\', e] + rest)[2..] == rest;
  }

  lemma HexRead(digits: string, rest: string)
    ensures Unescaped(['\\', 'x'] + digits + rest) == UnescapeDigits(Hex, digits + rest)
  {
    var s := ['\\', 'x'] + digits + rest;
    assert s[2..] == digits + rest;
    NumericUnfolds(s);
  }

  lemma OctalRead(digits: string, rest: string)
    requires digits != "" && IsDigit(Octal, digits[0])
    ensures Unescaped(['\\'] + digits + rest) == UnescapeDigits(Octal, digits + rest)
  {
    var s := ['\\'] + digits + rest;
    assert s[1..] == digits + rest && s[1] == digits[0];
    NumericUnfolds(s);
  }

  lemma OneRead(item: Spelling, rest: string)
    requires ValidSpelling(item)
    requires item.Numbered? ==>
      |item.digits| == MaxDigits(item.radix) || rest == "" || !IsDigit(item.radix, rest[0])
    ensures Unescaped(SpelledOne(item) + rest) == Prepend([Meaning(item)], Unescaped(rest))
  {
    match item {
      case Bare(c) => BareRead(c, rest);
      case Lettered(e) => LetteredRead(e, rest);
      case Numbered(Hex, digits) =>
        HexRead(digits, rest);
        NumberedRead(Hex, digits, rest);
      case Numbered(Octal, digits) =>
        OctalRead(digits, rest);
        NumberedRead(Octal, digits, rest);
    }
  }

  /** However a text is spelled, without digits that run on, it is decoded. */
  lemma {:induction false} SpelledIsDecoded(items: seq<Spelling>)
    requires NoRunOn(items)
    ensures Unescaped(SpelledAll(items)) == Some(MeaningOfAll(items))
  {
    if items != [] {
      var more := items[1..];
      assert NoRunOn(more);
      SpelledIsDecoded(more);
      if more != [] {
        SpelledStarts(more);
        assert more[0] == items[1];
      }
      OneRead(items[0], SpelledAll(more));
    }
  }

  lemma {:induction false} DigitsAreSkipped(radix: Radix, digits: string, rest: string)
    requires AllDigits(radix, digits)
    ensures EndOfString(digits + rest) == |digits| + EndOfString(rest)
  {
    if digits == "" {
      assert digits + rest == rest;
    } else {
      assert (digits + rest)[1..] == digits[1..] + rest;
      DigitsAreSkipped(radix, digits[1..], rest);
    }
  }

  lemma OneIsSkipped(item: Spelling, rest: string)
    requires ValidSpelling(item)
    ensures EndOfString(SpelledOne(item) + rest) == |SpelledOne(item)| + EndOfString(rest)
  {
    var s := SpelledOne(item) + rest;
    match item {
      case Bare(_) => assert s[1..] == rest;
      case Lettered(_) => assert s[2..] == rest;
      case Numbered(Hex, digits) =>
        assert s[2..] == digits + rest;
        DigitsAreSkipped(Hex, digits, rest);
      case Numbered(Octal, digits) =>
        assert s[2..] == digits[1..] + rest;
        DigitsAreSkipped(Octal, digits[1..], rest);
    }
  }

  lemma {:induction false} SpelledIsSkipped(items: seq<Spelling>, rest: string)
    requires forall i :: 0 <= i < |items| ==> ValidSpelling(items[i])
    ensures EndOfString(SpelledAll(items) + rest) == |SpelledAll(items)| + EndOfString(rest)
  {
    if items == [] {
      assert SpelledAll(items) + rest == rest;
    } else {
      Regroup(SpelledOne(items[0]), SpelledAll(items[1..]), rest);
      OneIsSkipped(items[0], SpelledAll(items[1..]) + rest);
      SpelledIsSkipped(items[1..], rest);
    }
  }

  /** A value in quotes, however it is spelled and whatever blanks follow it, is
      read as what is made of its text. */
  lemma StringIsRead(items: seq<Spelling>, blank: string)
    requires NoRunOn(items) && AsciiBlank(blank)
    ensures ReadString(SpelledAll(items) + (['"'] + blank)) == ReadText(MeaningOfAll(items))
  {
    var spelled, tail := SpelledAll(items), ['"'] + blank;
    SpelledIsSkipped(items, tail);
    assert (spelled + tail)[..|spelled|] == spelled;
    assert (spelled + tail)[|spelled| + 1..] == blank;
    SpelledIsDecoded(items);
  }

  // ----------------------------------------------- every text has a spelling

  /** Outside the characters UTF-16 takes two units for. */
  predicate OneUnit(c: char) {
    c as int < 0x1_0000
  }

  predicate OneUnitEach(text: string) {
    forall i :: 0 <= i < |text| ==> OneUnit(text[i])
  }

  function DigitOf(n: nat): (c: char)
    requires n < 16
    ensures IsDigit(Hex, c) && DigitValue(c) == n
  {
    if n < 10 then ('0' as int + n) as char else ('a' as int + n - 10) as char
  }

  function FourDigits(n: nat): (digits: string)
    requires n < 0x1_0000
    ensures |digits| == 4 && AllDigits(Hex, digits)
  {
    [DigitOf(n / 16 / 16 / 16), DigitOf(n / 16 / 16 % 16), DigitOf(n / 16 % 16), DigitOf(n % 16)]
  }

  lemma NumberAdd(digits: string, c: char)
    ensures Number(Hex, digits + [c]) == Number(Hex, digits) * 16 + DigitValue(c)
  {
    assert DropLast(digits + [c]) == digits;
  }

  lemma FourDigitsNumber(n: nat)
    requires n < 0x1_0000
    ensures Number(Hex, FourDigits(n)) == n
  {
    var q := n / 16;
    var r := q / 16;
    FourNumber(DigitOf(r / 16), DigitOf(r % 16), DigitOf(q % 16), DigitOf(n % 16));
    assert r == r / 16 * 16 + r % 16 && q == r * 16 + q % 16 && n == q * 16 + n % 16;
  }

  lemma FourNumber(a: char, b: char, c: char, d: char)
    ensures Number(Hex, [a, b, c, d])
         == ((DigitValue(a) * 16 + DigitValue(b)) * 16 + DigitValue(c)) * 16 + DigitValue(d)
  {
    NumberAdd([], a);
    NumberAdd([a], b);
    NumberAdd([a, b], c);
    NumberAdd([a, b, c], d);
    assert [] + [a] == [a] && [a] + [b] == [a, b] && [a, b] + [c] == [a, b, c];
    assert [a, b, c] + [d] == [a, b, c, d];
  }

  /** Four digits for what is not printable ASCII, a backslash for two marks. */
  function SpellingOf(c: char): Spelling
    requires OneUnit(c)
  {
    if c == '\\' || c == '"' then Lettered(c)
    else if ' ' <= c <= '~' then Bare(c)
    else Numbered(Hex, FourDigits(c as int))
  }

  lemma SpellingMeans(c: char)
    requires OneUnit(c)
    ensures ValidSpelling(SpellingOf(c)) && Meaning(SpellingOf(c)) == c
  {
    FourDigitsNumber(c as int);
  }

  /** So every text whose characters are one unit each stands in the file in a
      way that is read. */
  lemma {:induction false} EveryTextIsSpelled(text: string) returns (items: seq<Spelling>)
    requires OneUnitEach(text)
    ensures NoRunOn(items) && MeaningOfAll(items) == text && |items| == |text|
    ensures forall i :: 0 <= i < |items| ==> items[i] == SpellingOf(text[i])
  {
    if text == "" {
      items := [];
    } else {
      var more := EveryTextIsSpelled(text[1..]);
      SpellingMeans(text[0]);
      items := [SpellingOf(text[0])] + more;
      assert items[1..] == more;
    }
  }

  // ------------------------------------------------ and nothing else is decoded

  lemma SpellingCons(item: Spelling, more: seq<Spelling>)
    requires ValidSpelling(item) && NoRunOn(more) && (more != [] ==> Parted(item, more[0]))
    ensures var all := [item] + more;
      && NoRunOn(all) && SpelledAll(all) == SpelledOne(item) + SpelledAll(more)
      && MeaningOfAll(all) == [Meaning(item)] + MeaningOfAll(more)
  {
    var all := [item] + more;
    assert all[1..] == more;
    forall i | 0 <= i < |all|
      ensures ValidSpelling(all[i]) && (i + 1 < |all| ==> Parted(all[i], all[i + 1]))
    {
      if i > 0 {
        assert all[i] == more[i - 1] && (i + 1 < |all| ==> all[i + 1] == more[i]);
      }
    }
  }

  /** The first character of a text that is decoded, as it is spelled; no quote ends
      the text before it does. */
  lemma FirstSpelled(s: string) returns (item: Spelling, rest: string)
    requires s != "" && Unescaped(s).Some? && EndOfString(s) == |s|
    ensures ValidSpelling(item) && s == SpelledOne(item) + rest && |rest| < |s|
    ensures Unescaped(rest).Some? && Unescaped(s) == Prepend([Meaning(item)], Unescaped(rest))
    ensures item.Numbered? && |item.digits| < MaxDigits(item.radix) && rest != "" ==>
      !IsDigit(item.radix, rest[0])
  {
    if s[0] != '\\' {
      item, rest := Bare(s[0]), s[1..];
    } else if LetterMeaning(s[1]).Some? {
      item, rest := Lettered(s[1]), s[2..];
    } else {
      NumericUnfolds(s);
      if s[1] == 'x' {
        item, rest := HexSpelled(s);
      } else {
        item, rest := OctalSpelled(s);
      }
    }
  }

  lemma DigitsSpelled(radix: Radix, after: string) returns (digits: string, rest: string)
    requires UnescapeDigits(radix, after).Some?
    ensures ValidSpelling(Numbered(radix, digits)) && after == digits + rest
    ensures Unescaped(rest).Some?
    ensures UnescapeDigits(radix, after)
         == Prepend([Meaning(Numbered(radix, digits))], Unescaped(rest))
    ensures |digits| < MaxDigits(radix) && rest != "" ==> !IsDigit(radix, rest[0])
  {
    var n := DigitsAt(radix, after, MaxDigits(radix));
    digits, rest := after[..n], after[n..];
  }

  lemma HexSpelled(s: string) returns (item: Spelling, rest: string)
    requires |s| > 1 && s[0] == '\\' && s[1] == 'x' && UnescapeDigits(Hex, s[2..]).Some?
    ensures item.Numbered? && ValidSpelling(item) && s == SpelledOne(item) + rest && |rest| < |s|
    ensures Unescaped(rest).Some?
    ensures UnescapeDigits(Hex, s[2..]) == Prepend([Meaning(item)], Unescaped(rest))
    ensures |item.digits| < MaxDigits(item.radix) && rest != "" ==> !IsDigit(item.radix, rest[0])
  {
    var digits;
    digits, rest := DigitsSpelled(Hex, s[2..]);
    item := Numbered(Hex, digits);
    assert s == ['\\', 'x'] + s[2..];
  }

  lemma OctalSpelled(s: string) returns (item: Spelling, rest: string)
    requires |s| > 1 && s[0] == '\\' && UnescapeDigits(Octal, s[1..]).Some?
    ensures item.Numbered? && ValidSpelling(item) && s == SpelledOne(item) + rest && |rest| < |s|
    ensures Unescaped(rest).Some?
    ensures UnescapeDigits(Octal, s[1..]) == Prepend([Meaning(item)], Unescaped(rest))
    ensures |item.digits| < MaxDigits(item.radix) && rest != "" ==> !IsDigit(item.radix, rest[0])
  {
    var digits;
    digits, rest := DigitsSpelled(Octal, s[1..]);
    item := Numbered(Octal, digits);
    assert s == ['\\'] + s[1..];
  }

  /** Whatever is decoded was spelled so. */
  lemma {:induction false} DecodedIsSpelled(s: string) returns (items: seq<Spelling>)
    requires Unescaped(s).Some? && EndOfString(s) == |s|
    ensures NoRunOn(items) && SpelledAll(items) == s && Unescaped(s) == Some(MeaningOfAll(items))
    decreases |s|
  {
    if s == "" {
      items := [];
    } else {
      var item, rest := FirstSpelled(s);
      OneIsSkipped(item, rest);
      var more := DecodedIsSpelled(rest);
      if more != [] {
        SpelledStarts(more);
      }
      SpellingCons(item, more);
      items := [item] + more;
    }
  }

  lemma {:induction false} EndsWhereItEnds(s: string)
    requires EndOfString(s) < |s|
    ensures EndOfString(s[..EndOfString(s)]) == EndOfString(s)
    decreases |s|
  {
    var n := EndOfString(s);
    if s[0] == '\\' {
      EndsWhereItEnds(s[2..]);
      assert s[..n][2..] == s[2..][..n - 2];
    } else if s[0] != '"' {
      EndsWhereItEnds(s[1..]);
      assert s[..n][1..] == s[1..][..n - 1];
    }
  }

  /** Spaces, tabs, line breaks and form feeds. */
  predicate Blank(s: string) {
    forall i :: 0 <= i < |s| ==> s[i] as int in {9, 10, 12, 13, 32}
  }

  ghost predicate SpelledSo(body: string, reading: Reading, items: seq<Spelling>, blank: string) {
    && NoRunOn(items) && Blank(blank)
    && body == SpelledAll(items) + (['"'] + blank) && reading == ReadText(MeaningOfAll(items))
  }

  ghost predicate Spells(body: string, reading: Reading) {
    exists items, blank :: SpelledSo(body, reading, items, blank)
  }

  lemma BlankExactly(s: string)
    ensures Blank(s) <==> AsciiBlank(s)
  {
    forall i | 0 <= i < |s|
      ensures s[i] as int in {9, 10, 12, 13, 32} <==>
        s[i] == ' ' || s[i] == '\t' || s[i] == '\n' || s[i] == '\r' || s[i] as int == 12
    {
    }
  }

  lemma ClosedIsSpelled(raw: string, after: string)
    requires EndOfString(raw) == |raw| && ReadClosed(raw, after) != Other(FileRejected)
    ensures Spells(raw + (['"'] + after), ReadClosed(raw, after))
  {
    var items := DecodedIsSpelled(raw);
    BlankExactly(after);
    assert SpelledSo(raw + (['"'] + after), ReadClosed(raw, after), items, after);
  }

  lemma CutAt(s: string, n: nat)
    requires n < |s| && s[n] == '"'
    ensures s == s[..n] + (['"'] + s[n + 1..])
  {
  }

  lemma ReadIsSpelled(body: string)
    requires ReadString(body) != Other(FileRejected)
    ensures Spells(body, ReadString(body))
  {
    var n := EndOfString(body);
    EndsWhereItEnds(body);
    CutAt(body, n);
    ClosedIsSpelled(body[..n], body[n + 1..]);
  }

  lemma SpelledIsRead(body: string, reading: Reading)
    requires Spells(body, reading)
    ensures ReadString(body) == reading
  {
    var items, blank :| SpelledSo(body, reading, items, blank);
    BlankExactly(blank);
    StringIsRead(items, blank);
  }

  /** What follows the opening quote is read exactly when it is some spelling, a
      closing quote and blanks; as what is made of the text spelled. */
  lemma ReadStringExactly(body: string, reading: Reading)
    requires reading != Other(FileRejected)
    ensures ReadString(body) == reading <==> Spells(body, reading)
  {
    if ReadString(body) == reading {
      ReadIsSpelled(body);
    }
    if Spells(body, reading) {
      SpelledIsRead(body, reading);
    }
  }

  // ----------------------------------------------- what the small tables hold

  /** The letters that stand for a character, each with its code. */
  lemma LettersExactly(e: char, c: char)
    ensures LetterMeaning(e) == Some(c) <==>
      (e, c as int) in {('\\', 0x5C), ('"', 0x22), ('[', 0x5B), (']', 0x5D), ('a', 7), ('b', 8),
                        ('t', 9), ('n', 10), ('v', 11), ('f', 12), ('r', 13), ('e', 27)}
  {
  }

  /** A digit stands in the row of its base, at its worth, in either case. */
  lemma DigitsExactly(radix: Radix, c: char, n: nat)
    requires n < 16
    ensures IsDigit(radix, c) && DigitValue(c) == n <==>
      && n < (if radix == Hex then 16 else 8)
      && (c == "0123456789abcdef"[n] || c == "0123456789ABCDEF"[n])
  {
  }

  /** Digits read from the first on, `before` being what came before them. */
  function Worth(base: nat, digits: string, before: nat): nat {
    if digits == "" then before else Worth(base, digits[1..], before * base + DigitValue(digits[0]))
  }

  lemma {:induction false} WorthAfter(radix: Radix, first: string, more: string)
    ensures Worth(Base(radix), more, Number(radix, first)) == Number(radix, first + more)
    decreases |more|
  {
    if more == "" {
      assert first + more == first;
    } else {
      var next := first + [more[0]];
      assert next + more[1..] == first + more && DropLast(next) == first;
      WorthAfter(radix, next, more[1..]);
    }
  }

  /** The number is that of the digits in base 16 or 8, and the character the one of
      that code, unless it is half of a pair. */
  lemma NumberExactly(radix: Radix, digits: string)
    ensures Number(radix, digits) == Worth(if radix == Hex then 16 else 8, digits, 0)
    ensures forall c :: CharOf(Number(radix, digits)) == Some(c) <==>
      && c as int == Number(radix, digits) < 0x1_0000
      && !(0xD800 <= Number(radix, digits) <= 0xDFFF)
  {
    WorthAfter(radix, "", digits);
    assert "" + digits == digits;
  }

  /** A text is read as itself if it is not empty and no character of it is one of
      the control characters, which the line breaks are among. */
  lemma ReadTextExactly(text: string, path: string)
    ensures ReadText(text) == Plain(path)
       <==> && path == text && text != ""
            && forall i :: 0 <= i < |text| ==>
                 0x20 <= text[i] as int < 0x7F || 0xA0 <= text[i] as int
    ensures ReadText(text) == Other(NoPath) <==> text == ""
    ensures ReadText(text) == Other(LineBreak) <==>
      exists i :: 0 <= i < |text| && (text[i] as int == 10 || text[i] as int == 13)
    ensures ReadText(text) != Absent
  {
    if i: nat :| i < |text| && (text[i] as int == 10 || text[i] as int == 13) {
      assert text[i] in text;
    }
    if '\n' in text || '\r' in text {
      var i: nat :| i < |text| && (text[i] == '\n' || text[i] == '\r');
      assert IsControl(text[i]);
    } else if HasControl(text) {
      var i :| 0 <= i < |text| && IsControl(text[i]);
    } else {
      assert forall i :: 0 <= i < |text| ==> !IsControl(text[i]);
    }
  }
}
