/** Range syntax in unit names: reading "Floor 1..8", and the names it expands to. */
module UnitNames {
  import opened Prelude
  import opened Decimal

  const LETTERS := "ABCDEFGHIJKLMNOPQRSTUVWXYZ"

  /** From and to as numbers, or as places in the alphabet. */
  datatype Repeat = Repeat(from: nat, to: nat, letters: bool)

  // ----- Characters -----

  /** A line terminator, which the dot of a pattern does not match. */
  predicate IsNewline(c: char) { c == '\n' || c == '\r' || c == '\U{2028}' || c == '\U{2029}' }

  predicate IsBlank(c: char) {
    || c == ' ' || '\t' <= c <= '\r' || c == '\U{a0}' || c == '\U{1680}' || '\U{2000}' <= c <= '\U{200a}'
    || IsNewline(c) || c == '\U{202f}' || c == '\U{205f}' || c == '\U{3000}' || c == '\U{feff}'
  }

  predicate IsLetter(c: char) { 'a' <= c <= 'z' || 'A' <= c <= 'Z' }

  function LetterIndex(c: char): (i: nat)
    requires IsLetter(c)
    ensures i < 26
  {
    if c <= 'Z' then c as int - 'A' as int else c as int - 'a' as int
  }

  function TrimLeft(s: string): string {
    if s != "" && IsBlank(s[0]) then TrimLeft(s[1..]) else s
  }

  function TrimRight(s: string): string {
    if s != "" && IsBlank(s[|s| - 1]) then TrimRight(s[..|s| - 1]) else s
  }

  function Trim(s: string): string { TrimRight(TrimLeft(s)) }

  // ----- Reading -----

  function DigitRun(s: string): (k: nat)
    ensures k <= |s| && AllDigits(s[..k])
  {
    if s == "" || !IsDigit(s[0]) then 0 else 1 + DigitRun(s[1..])
  }

  /** What must end the name: two short numbers or two letters around two dots, and nothing else. */
  function Tail(s: string): Option<Repeat> {
    var k := DigitRun(s);
    if 1 <= k <= 6 && k + 3 <= |s| <= k + 8 && s[k..k + 2] == ".." && AllDigits(s[k + 2..]) then
      Some(Repeat(Parse(s[..k]), Parse(s[k + 2..]), false))
    else if |s| == 4 && IsLetter(s[0]) && s[1..3] == ".." && IsLetter(s[3]) then
      Some(Repeat(LetterIndex(s[0]), LetterIndex(s[3]), true))
    else None
  }

  /** The shortest stem, free of line ends, that leaves nothing but blanks and such an end. */
  function Match(s: string, i: nat): (m: Option<(nat, Repeat)>)
    requires i <= |s|
    ensures m.Some? ==> i <= m.value.0 <= |s|
    decreases |s| - i
  {
    match Tail(TrimLeft(s[i..]))
    case Some(r) => Some((i, r))
    case None => if i == |s| || IsNewline(s[i]) then None else Match(s, i + 1)
  }

  datatype Reading = Reading(name: string, repeat: Option<Repeat>)

  function ParseUnitRange(input: string): Reading {
    var trimmed := Trim(input);
    match Match(trimmed, 0)
    case None => Reading(trimmed, None)
    case Some((i, r)) =>
      if Trim(trimmed[..i]) == "" then Reading(trimmed, None) else Reading(Trim(trimmed[..i]), Some(r))
  }

  // ----- Expanding -----

  function RepeatCount(r: Repeat): nat {
    if r.to < r.from then 0 else r.to - r.from + 1
  }

  function NameAt(name: string, r: Repeat, index: nat): string {
    if !r.letters then name + " " + Print(r.from + index)
    else Trim(name + " " + if r.from + index < 26 then [LETTERS[r.from + index]] else "")
  }

  function ExpandUnitNames(name: string, repeat: Option<Repeat>): seq<string> {
    if repeat.None? then [name]
    else seq(RepeatCount(repeat.value), i requires 0 <= i => NameAt(name, repeat.value, i))
  }

  // ----- What is read, exactly -----

  /** White space, by code. */
  lemma BlanksAre(c: char)
    ensures IsBlank(c) <==> || 9 <= c as int <= 13 || c as int in {32, 160, 5760, 8232, 8233, 8239, 8287, 12288, 65279}
                            || 8192 <= c as int <= 8202
    ensures IsNewline(c) <==> c as int in {10, 13, 8232, 8233}
    ensures IsLetter(c) <==> 65 <= c as int <= 90 || 97 <= c as int <= 122
  {}

  /** Two numbers of one to six digits around two dots. */
  predicate NumberEnd(s: string, x: string, y: string) {
    s == x + ".." + y && 1 <= |x| <= 6 && 1 <= |y| <= 6 && AllDigits(x) && AllDigits(y)
  }

  /** Two letters around two dots. */
  predicate LetterEnd(s: string) {
    |s| == 4 && s[1] == '.' && s[2] == '.' && IsLetter(s[0]) && IsLetter(s[3])
  }

  lemma {:induction false} DigitRunStops(s: string)
    ensures DigitRun(s) < |s| ==> !IsDigit(s[DigitRun(s)])
  {
    if s != "" && IsDigit(s[0]) { DigitRunStops(s[1..]); }
  }

  /** A range end is exactly such a text, and means its numbers, or the places of its letters in the alphabet. */
  lemma TailMeans(s: string)
    ensures Tail(s).Some? <==> (exists x, y :: NumberEnd(s, x, y)) || LetterEnd(s)
    ensures forall x, y :: NumberEnd(s, x, y) ==> Tail(s) == Some(Repeat(Parse(x), Parse(y), false))
    ensures LetterEnd(s) ==> Tail(s) == Some(Repeat(LetterIndex(s[0]), LetterIndex(s[3]), true))
  {
    forall x, y | NumberEnd(s, x, y) ensures Tail(s) == Some(Repeat(Parse(x), Parse(y), false)) { NumberTail(x, y); }
    if LetterEnd(s) { assert s[1..3] == ".."; }
    if Tail(s).Some? { TailIsWritten(s); }
  }

  lemma TailIsWritten(s: string)
    requires Tail(s).Some?
    ensures (exists x, y :: NumberEnd(s, x, y)) || LetterEnd(s)
  {
    var k := DigitRun(s);
    if 1 <= k <= 6 && k + 3 <= |s| <= k + 8 && s[k..k + 2] == ".." && AllDigits(s[k + 2..]) {
      assert s == s[..k] + s[k..k + 2] + s[k + 2..];
      assert NumberEnd(s, s[..k], s[k + 2..]);
    } else {
      assert s[1] == s[1..3][0] && s[2] == s[1..3][1];
    }
  }

  /** The range end that is left from a place on, behind blanks. */
  function EndFrom(s: string, i: nat): Option<Repeat>
    requires i <= |s|
  {
    Tail(TrimLeft(s[i..]))
  }

  lemma MatchStep(s: string, i: nat)
    requires i <= |s|
    ensures EndFrom(s, i).Some? ==> Match(s, i) == Some((i, EndFrom(s, i).value))
    ensures EndFrom(s, i) == None && i < |s| && !IsNewline(s[i]) ==> Match(s, i) == Match(s, i + 1)
    ensures EndFrom(s, i) == None && (i == |s| || IsNewline(s[i])) ==> Match(s, i) == None
  {}

  /** A split is read at a place exactly when it is the first place with an end behind blanks, and on the first line. */
  lemma {:induction false} MatchIsFirst(s: string, i: nat)
    requires i <= |s|
    ensures match Match(s, i)
            case Some((j, r)) => EndFrom(s, j) == Some(r) && (forall k :: i <= k < j ==> EndFrom(s, k) == None && !IsNewline(s[k]))
            case None => forall j :: i <= j <= |s| && (forall k :: i <= k < j ==> !IsNewline(s[k])) ==> EndFrom(s, j) == None
    decreases |s| - i
  {
    MatchStep(s, i);
    if EndFrom(s, i) == None && i < |s| && !IsNewline(s[i]) { MatchIsFirst(s, i + 1); }
  }

  /** What is no range keeps its trimmed text as its name; so does a range without a name. */
  lemma PlainNameIsKept(input: string)
    ensures var s, m := Trim(input), Match(Trim(input), 0);
            ParseUnitRange(input)
            == if m == None || Trim(s[..m.value.0]) == "" then Reading(s, None) else Reading(Trim(s[..m.value.0]), Some(m.value.1))
  {}

  // ----- A written range is read back -----

  predicate HasMark(s: string) { exists i :: 0 <= i < |s| && !IsBlank(s[i]) }

  lemma {:induction false} TrimLeftInside(x: string, y: string)
    requires HasMark(x)
    ensures TrimLeft(x + y) == TrimLeft(x) + y && |TrimLeft(x)| > 0
  {
    if IsBlank(x[0]) {
      assert (x + y)[1..] == x[1..] + y;
      var i :| 0 <= i < |x| && !IsBlank(x[i]);
      assert x[1..][i - 1] == x[i];
      TrimLeftInside(x[1..], y);
    }
  }

  /** Nothing in a range end is blank. */
  lemma TailHasNoBlank(s: string, i: nat)
    requires Tail(s).Some? && i < |s|
    ensures !IsBlank(s[i])
  {
    var k := DigitRun(s);
    if |s| == 4 && IsLetter(s[0]) && s[1..3] == ".." && IsLetter(s[3]) {
      assert s[1] == s[1..3][0] && s[2] == s[1..3][1];
    } else {
      assert i < k ==> s[i] == s[..k][i];
      assert k <= i < k + 2 ==> s[i] == s[k..k + 2][i - k];
      assert k + 2 <= i ==> s[i] == s[k + 2..][i - k - 2];
    }
  }

  /** A blank behind a mark cannot be part of a range end. */
  lemma NoMatchBefore(x: string, y: string)
    requires HasMark(x) && y != "" && IsBlank(y[0])
    ensures Tail(TrimLeft(x + y)) == None
  {
    TrimLeftInside(x, y);
    var s := TrimLeft(x) + y;
    if Tail(s).Some? { TailHasNoBlank(s, |TrimLeft(x)|); }
  }

  /** A name that needs no trimming and has no line end. */
  predicate PlainStem(stem: string) {
    stem != "" && !IsBlank(stem[0]) && !IsBlank(stem[|stem| - 1]) && forall i :: 0 <= i < |stem| ==> !IsNewline(stem[i])
  }

  lemma {:induction false} MatchAtStem(stem: string, tail: string, i: nat)
    requires PlainStem(stem) && i <= |stem| && Tail(tail).Some? && TrimLeft(tail) == tail
    ensures var s := stem + " " + tail; Match(s, i) == Some((|stem|, Tail(tail).value))
    decreases |stem| - i
  {
    var s := stem + " " + tail;
    if i == |stem| {
      assert s[i..] == " " + tail && (" " + tail)[1..] == tail;
    } else {
      var x := stem[i..];
      assert s[i..] == x + (" " + tail);
      assert x[|x| - 1] == stem[|stem| - 1];
      NoMatchBefore(x, " " + tail);
      MatchAtStem(stem, tail, i + 1);
    }
  }

  lemma TrimKeeps(s: string)
    requires s != "" && !IsBlank(s[0]) && !IsBlank(s[|s| - 1])
    ensures Trim(s) == s
  {}

  lemma ReadsStemAndTail(stem: string, tail: string)
    requires PlainStem(stem) && tail != "" && Tail(tail).Some?
    ensures ParseUnitRange(stem + " " + tail) == Reading(stem, Tail(tail))
  {
    var s := stem + " " + tail;
    TailHasNoBlank(tail, 0);
    TailHasNoBlank(tail, |tail| - 1);
    TrimKeeps(s);
    TrimKeeps(stem);
    MatchAtStem(stem, tail, 0);
    assert s[..|stem|] == stem;
  }

  lemma {:induction false} DigitRunOf(digits: string, rest: string)
    requires AllDigits(digits) && rest != "" && !IsDigit(rest[0])
    ensures DigitRun(digits + rest) == |digits|
  {
    if digits == "" {
      assert digits + rest == rest;
    } else {
      assert (digits + rest)[1..] == digits[1..] + rest;
      DigitRunOf(digits[1..], rest);
    }
  }

  lemma NumberTail(a: string, b: string)
    requires AllDigits(a) && AllDigits(b) && 1 <= |a| <= 6 && 1 <= |b| <= 6
    ensures Tail(a + ".." + b) == Some(Repeat(Parse(a), Parse(b), false))
  {
    var s := a + ".." + b;
    DigitRunOf(a, ".." + b);
    assert s == a + (".." + b);
    assert s[..|a|] == a && s[|a|..|a| + 2] == ".." && s[|a| + 2..] == b;
  }

  /** Any plain name followed by a written number range of at most six digits a side is read back. */
  lemma ReadsNumberRange(stem: string, from: nat, to: nat)
    requires PlainStem(stem) && from < Pow10(6) && to < Pow10(6)
    ensures ParseUnitRange(stem + " " + (Print(from) + ".." + Print(to))) == Reading(stem, Some(Repeat(from, to, false)))
  {
    PrintLength(from, 6);
    PrintLength(to, 6);
    NumberTail(Print(from), Print(to));
    ParsePrint(from);
    ParsePrint(to);
    ReadsStemAndTail(stem, Print(from) + ".." + Print(to));
  }

  /** So is a letter range, in either case. */
  lemma ReadsLetterRange(stem: string, from: char, to: char)
    requires PlainStem(stem) && IsLetter(from) && IsLetter(to)
    ensures ParseUnitRange(stem + " " + [from, '.', '.', to]) == Reading(stem, Some(Repeat(LetterIndex(from), LetterIndex(to), true)))
  {
    var tail := [from, '.', '.', to];
    assert tail[1..3] == "..";
    ReadsStemAndTail(stem, tail);
  }

  // ----- The names of a range differ -----

  lemma PrintTellsApart(a: nat, b: nat)
    requires Print(a) == Print(b)
    ensures a == b
  {
    ParsePrint(a);
    ParsePrint(b);
  }

  lemma NumberNamesDiffer(name: string, a: nat, b: nat)
    requires a != b
    ensures name + " " + Print(a) != name + " " + Print(b)
  {
    var x, y := name + " " + Print(a), name + " " + Print(b);
    assert x[|name| + 1..] == Print(a) && y[|name| + 1..] == Print(b);
    if Print(a) == Print(b) { PrintTellsApart(a, b); }
  }

  /** A letter stays at the end when the name is trimmed. */
  lemma LetterStays(name: string, c: char)
    requires IsLetter(c)
    ensures var t := Trim(name + " " + [c]); t != "" && t[|t| - 1] == c
    ensures HasMark(name) ==> Trim(name + " " + [c]) == TrimLeft(name) + " " + [c]
  {
    var s := name + " ";
    assert name + " " + [c] == s + [c];
    EndsWithMark(s, c);
    if HasMark(name) {
      TrimLeftInside(name, " " + [c]);
      assert name + " " + [c] == name + (" " + [c]);
    }
  }

  lemma {:induction false} EndsWithMark(s: string, c: char)
    requires !IsBlank(c)
    ensures TrimLeft(s + [c]) != "" && TrimLeft(s + [c])[|TrimLeft(s + [c])| - 1] == c
  {
    if s != "" && IsBlank(s[0]) {
      assert (s + [c])[1..] == s[1..] + [c];
      EndsWithMark(s[1..], c);
    }
  }

  lemma LettersDiffer(name: string, a: char, b: char)
    requires IsLetter(a) && IsLetter(b) && a != b
    ensures Trim(name + " " + [a]) != Trim(name + " " + [b])
  {
    LetterStays(name, a);
    LetterStays(name, b);
  }

  lemma LetterNamesDiffer(name: string, r: Repeat, i: nat, j: nat)
    requires r.letters && i < j && r.from + i < 26
    ensures NameAt(name, r, i) != NameAt(name, r, j)
  {
    LetterName(name, r, i);
    if r.from + j < 26 {
      LetterName(name, r, j);
      LettersDiffer(name, LETTERS[r.from + i], LETTERS[r.from + j]);
    } else {
      assert NameAt(name, r, j) == Trim(name + " " + "");
      BareIsShorter(name, LETTERS[r.from + i]);
    }
  }

  lemma LetterName(name: string, r: Repeat, i: nat)
    requires r.letters && r.from + i < 26
    ensures var c := LETTERS[r.from + i];
            IsLetter(c) && c as int == 'A' as int + r.from + i && NameAt(name, r, i) == Trim(name + " " + [c])
  {
    AlphabetAt(r.from + i);
  }

  lemma AlphabetAt(i: nat)
    requires i < 26
    ensures IsLetter(LETTERS[i]) && LETTERS[i] as int == 'A' as int + i
  {}

  lemma {:induction false} TrimRightShortens(s: string)
    ensures |TrimRight(s)| <= |s|
  {
    if s != "" && IsBlank(s[|s| - 1]) { TrimRightShortens(s[..|s| - 1]); }
  }

  lemma {:induction false} AllBlankTrims(s: string)
    requires !HasMark(s)
    ensures TrimLeft(s) == ""
  {
    if s != "" {
      assert forall i :: 0 <= i < |s[1..]| ==> IsBlank(s[1..][i]) by {
        forall i | 0 <= i < |s[1..]| ensures IsBlank(s[1..][i]) { assert s[1..][i] == s[i + 1]; }
      }
      AllBlankTrims(s[1..]);
    }
  }

  lemma BareIsShorter(name: string, c: char)
    requires IsLetter(c)
    ensures Trim(name + " " + "") != Trim(name + " " + [c])
  {
    LetterStays(name, c);
    var bare := name + " " + "";
    assert bare == name + " ";
    if HasMark(name) {
      TrimLeftInside(name, " ");
      TrimRightShortens(TrimLeft(name) + " ");
    } else {
      assert !HasMark(bare) by {
        forall i | 0 <= i < |bare| ensures IsBlank(bare[i]) { assert i < |name| ==> bare[i] == name[i]; }
      }
      AllBlankTrims(bare);
    }
  }

  /**
   * A range expands to as many names as it counts, all different exactly unless at least two letters run past Z:
   * those all come out as the bare name.
   */
  lemma ExpandsToDistinctNames(name: string, r: Repeat)
    ensures |ExpandUnitNames(name, Some(r))| == if r.to < r.from then 0 else r.to - r.from + 1
    ensures ExpandUnitNames(name, None) == [name]
    ensures Distinct(ExpandUnitNames(name, Some(r))) <==> !(r.letters && r.to >= 27 && r.from < r.to)
  {
    var names := ExpandUnitNames(name, Some(r));
    if r.letters && r.to >= 27 && r.from < r.to {
      var n := |names|;
      assert names[n - 2] == NameAt(name, r, n - 2) && names[n - 1] == NameAt(name, r, n - 1);
      assert names[n - 2] == names[n - 1];
    } else {
      forall i, j | 0 <= i < j < |names| ensures names[i] != names[j] {
        if r.letters { LetterNamesDiffer(name, r, i, j); } else { NumberNamesDiffer(name, r.from + i, r.from + j); }
      }
    }
  }
}
