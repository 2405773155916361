/**
 The speed statements configured on EOS switch ports: printing the statement for a speed, reading statements
 back in any of the forms the switch may render, and deciding whether a running configuration has the speed.
 */
module SpeedStatements {
  import opened Wrappers
  import opened Text

  /** A parsed statement: a forced rate in Mbps, or automatic with a qualifier, possibly empty. */
  datatype Speed = Forced(mbps: nat) | Auto(qualifier: string)

  // ---------------------------------------------------------------- printing

  /** The statement for a speed in Gbps; none when the speed is unset. */
  function ExpectedStatement(gbps: int): Option<string> {
    if gbps <= 0 then None else Some("speed " + Token(gbps))
  }

  function Token(gbps: nat): string {
    if gbps == 1 then "forced 1000full"
    else if gbps == 10 then "forced 10gfull"
    else if gbps == 25 then "forced 25gfull"
    else if gbps == 40 then "forced 40gfull"
    else if gbps == 100 then "auto 100g-2"
    else "forced " + Decimal(gbps) + "gfull"
  }

  /** How the switch may render a forced rate: in plain Mbps. */
  function CanonicalStatement(gbps: nat): string {
    "speed forced " + Decimal(1000 * gbps) + "full"
  }

  // ---------------------------------------------------------------- parsing

  predicate AllWordChars(s: string) {
    forall i :: 0 <= i < |s| ==> IsWordChar(s[i])
  }

  predicate NoSpaces(s: string) {
    forall i :: 0 <= i < |s| ==> !IsSpace(s[i])
  }

  /** What follows a given word, read in any letter case. */
  function AfterWord(s: string, word: string): Option<string> {
    if |word| <= |s| && Lower(s[..|word|]) == word then Some(s[|word|..]) else None
  }

  /** What follows at least one space. */
  function AfterSpaces(s: string): Option<string> {
    if s != [] && IsSpace(s[0]) then Some(StripLeft(s)) else None
  }

  /** The length of the longest prefix of digits. */
  function DigitCount(s: string): (n: nat)
    ensures n <= |s| && forall i :: 0 <= i < n ==> IsDigit(s[i])
    ensures n < |s| ==> !IsDigit(s[n])
  {
    if s != [] && IsDigit(s[0]) then 1 + DigitCount(s[1..]) else 0
  }

  /** Digits, an optional "g" that multiplies by 1000, then word characters only. */
  function ParseRate(s: string): Option<Speed> {
    var n := DigitCount(s);
    if n == 0 then None
    else
      var value, rest := DecimalValue(s[..n]), s[n..];
      if !AllWordChars(rest) then None
      else if rest != [] && LowerChar(rest[0]) == 'g' then Some(Forced(value * 1000))
      else Some(Forced(value))
  }

  function ParseQualifier(s: string): Option<Speed> {
    if s == [] then Some(Auto(""))
    else
      var rest := AfterSpaces(s);
      if rest.Some? && rest.value != [] && NoSpaces(rest.value) then Some(Auto(rest.value)) else None
  }

  function ParseStatement(statement: string): Option<Speed> {
    var speed := AfterWord(Strip(statement), "speed");
    var mode := if speed.Some? then AfterSpaces(speed.value) else None;
    if mode.None? then None
    else
      var forced := AfterWord(mode.value, "forced");
      var auto := AfterWord(mode.value, "auto");
      if forced.Some? then
        var rate := AfterSpaces(forced.value);
        if rate.Some? then ParseRate(rate.value) else None
      else if auto.Some? then ParseQualifier(auto.value)
      else None
  }

  // ---------------------------------------------------------------- comparing

  /** A line has the wanted speed; an automatic mode without qualifier stands for any automatic mode. */
  predicate LineMatches(want: Speed, line: string) {
    var got := ParseStatement(line);
    got.Some? &&
    match want
    case Forced(mbps) => got.value == want
    case Auto(qualifier) => got.value == Auto("") || got.value == want
  }

  predicate StatementMatches(expected: Option<string>, line: string) {
    && expected.Some?
    && ParseStatement(expected.value).Some?
    && LineMatches(ParseStatement(expected.value).value, line)
  }

  method SpeedStatementMatches(expected: Option<string>, lines: seq<string>) returns (found: bool)
    ensures found <==> exists i :: 0 <= i < |lines| && StatementMatches(expected, lines[i])
  {
    var want := ParseStatement(if expected.Some? then expected.value else "");
    if want.None? {
      return false;
    }
    var i := 0;
    while i < |lines|
      invariant 0 <= i <= |lines|
      invariant forall k :: 0 <= k < i ==> !LineMatches(want.value, lines[k])
    {
      var got := ParseStatement(lines[i]);
      i := i + 1;
      if got.None? || got.value.Forced? != want.value.Forced? {
        continue;
      }
      if want.value.Forced? {
        if got.value.mbps == want.value.mbps {
          assert LineMatches(want.value, lines[i - 1]);
          return true;
        }
      } else if got.value.qualifier == "" || got.value.qualifier == want.value.qualifier {
        assert LineMatches(want.value, lines[i - 1]);
        return true;
      }
    }
    return false;
  }

  // ---------------------------------------------------------------- the printed forms are read back

  lemma AfterWordOf(word: string, rest: string)
    requires Lower(word) == word
    ensures AfterWord(word + rest, word) == Some(rest)
  {
    assert (word + rest)[..|word|] == word;
    assert (word + rest)[|word|..] == rest;
  }

  lemma AfterSpaceOf(rest: string)
    requires rest != [] && !IsSpace(rest[0])
    ensures AfterSpaces(" " + rest) == Some(rest)
  {
    var s := " " + rest;
    assert s[0] == ' ' && s[1..] == rest;
    assert StripLeft(rest) == rest;
  }

  lemma {:induction false} DigitCountOf(digits: string, tail: string)
    requires forall i :: 0 <= i < |digits| ==> IsDigit(digits[i])
    requires tail != [] && !IsDigit(tail[0])
    ensures DigitCount(digits + tail) == |digits|
  {
    if digits == [] {
      assert digits + tail == tail;
    } else {
      assert (digits + tail)[1..] == digits[1..] + tail;
      DigitCountOf(digits[1..], tail);
    }
  }

  /** A statement put together from its words. */
  function Words(mode: string, argument: string): string {
    "speed" + (" " + (mode + (" " + argument)))
  }

  lemma ForcedWords(rate: string)
    ensures "speed forced " + rate == Words("forced", rate)
  {
    assert "speed forced " == "speed" + " " + "forced" + " ";
  }

  lemma AutoWords(qualifier: string)
    ensures "speed auto " + qualifier == Words("auto", qualifier)
  {
    assert "speed auto " == "speed" + " " + "auto" + " ";
  }

  /** Reading the words of a statement one after the other. */
  lemma AfterSpeed(mode: string, argument: string)
    requires argument != [] && !IsSpace(argument[|argument| - 1])
    requires mode != [] && !IsSpace(mode[0])
    ensures AfterWord(Strip(Words(mode, argument)), "speed") == Some(" " + (mode + (" " + argument)))
    ensures AfterSpaces(" " + (mode + (" " + argument))) == Some(mode + (" " + argument))
  {
    StripKeeps(Words(mode, argument));
    AfterWordOf("speed", " " + (mode + (" " + argument)));
    AfterSpaceOf(mode + (" " + argument));
  }

  lemma ParseForcedWords(rate: string)
    requires rate != [] && !IsSpace(rate[0]) && !IsSpace(rate[|rate| - 1])
    ensures ParseStatement(Words("forced", rate)) == ParseRate(rate)
  {
    AfterSpeed("forced", rate);
    AfterWordOf("forced", " " + rate);
    AfterSpaceOf(rate);
  }

  lemma ParseAutoWords(qualifier: string)
    requires qualifier != [] && NoSpaces(qualifier)
    ensures ParseStatement(Words("auto", qualifier)) == Some(Auto(qualifier))
  {
    AfterSpeed("auto", qualifier);
    AfterWordOf("auto", " " + qualifier);
    AfterSpaceOf(qualifier);
    var rest := "auto" + (" " + qualifier);
    assert 6 <= |rest| ==> Lower(rest[..6])[0] == 'a';
    assert AfterWord(rest, "forced") == None;
  }

  /** A number followed by a suffix of word characters that does not start with a digit. */
  lemma ParseRateOf(n: nat, suffix: string)
    requires suffix != [] && AllWordChars(suffix) && !IsDigit(suffix[0])
    ensures ParseRate(Decimal(n) + suffix) == Some(Forced(if LowerChar(suffix[0]) == 'g' then n * 1000 else n))
  {
    var rate := Decimal(n) + suffix;
    DigitCountOf(Decimal(n), suffix);
    assert rate[..|Decimal(n)|] == Decimal(n) && rate[|Decimal(n)|..] == suffix;
    DecimalRoundTrip(n);
  }

  lemma ParseForced(n: nat, suffix: string)
    requires suffix != [] && AllWordChars(suffix) && !IsDigit(suffix[0])
    ensures ParseStatement("speed forced " + Decimal(n) + suffix)
            == Some(Forced(if LowerChar(suffix[0]) == 'g' then n * 1000 else n))
  {
    var rate := Decimal(n) + suffix;
    assert "speed forced " + Decimal(n) + suffix == "speed forced " + rate;
    ForcedWords(rate);
    ParseForcedWords(rate);
    ParseRateOf(n, suffix);
  }

  lemma TwoDigits(a: nat, b: nat)
    requires 0 < a < 10 && b < 10
    ensures Decimal(10 * a + b) == [DigitChar(a), DigitChar(b)]
  {
    assert Decimal(a) == [DigitChar(a)];
  }

  lemma TimesTen(n: nat)
    requires 0 < n
    ensures Decimal(10 * n) == Decimal(n) + "0"
  {
  }

  lemma OneToken()
    ensures Token(1) == "forced " + Decimal(1000) + "full"
  {
    TwoDigits(1, 0);
    TimesTen(10);
    TimesTen(100);
    assert Decimal(1000) == "1000";
  }

  /** Apart from 1 and 100 Gbps, the tokens that are spelled out follow the general form. */
  lemma TokenForm(gbps: nat)
    requires 0 < gbps && gbps != 1 && gbps != 100
    ensures Token(gbps) == "forced " + Decimal(gbps) + "gfull"
  {
    if gbps == 10 || gbps == 25 || gbps == 40 {
      TwoDigits(gbps / 10, gbps % 10);
    }
  }

  lemma Regroup(a: string, b: string, c: string, d: string)
    ensures a + (b + c + d) == (a + b) + c + d
  {
  }

  lemma HundredToken()
    ensures Token(100) == "auto " + "100g-2"
  {
  }

  lemma HundredQualifier()
    ensures NoSpaces("100g-2")
  {
  }

  lemma HundredParses()
    ensures ParseStatement(ExpectedStatement(100).value) == Some(Auto("100g-2"))
  {
    var qualifier := "100g-2";
    HundredToken();
    HundredQualifier();
    AutoStatement(qualifier);
    ParseAutoWords(qualifier);
  }

  lemma AutoStatement(qualifier: string)
    ensures "speed " + ("auto " + qualifier) == Words("auto", qualifier)
  {
    assert "speed " + "auto " == "speed auto ";
    assert "speed " + ("auto " + qualifier) == "speed auto " + qualifier;
    AutoWords(qualifier);
  }

  lemma ForcedParses(gbps: nat, n: nat, suffix: string)
    requires 0 < gbps && Token(gbps) == "forced " + Decimal(n) + suffix
    requires suffix == "full" || suffix == "gfull"
    ensures ParseStatement(ExpectedStatement(gbps).value) == Some(Forced(if suffix == "gfull" then n * 1000 else n))
  {
    Regroup("speed ", "forced ", Decimal(n), suffix);
    assert "speed " + "forced " == "speed forced ";
    ParseForced(n, suffix);
  }

  /** The printed statement parses to the speed it was printed for. */
  lemma ExpectedParses(gbps: int)
    requires 0 < gbps
    ensures ParseStatement(ExpectedStatement(gbps).value)
            == Some(if gbps == 100 then Auto("100g-2") else Forced(1000 * gbps))
  {
    if gbps == 100 {
      HundredParses();
    } else if gbps == 1 {
      OneToken();
      ForcedParses(1, 1000, "full");
    } else {
      TokenForm(gbps);
      ForcedParses(gbps, gbps, "gfull");
    }
  }

  predicate Accepts(want: Speed, got: Speed) {
    got == want || (want.Auto? && got == Auto(""))
  }

  /** Only the parsed forms of the two statements matter. */
  lemma ParsedFormsDecide(expected: string, line: string, want: Speed, got: Speed)
    requires ParseStatement(expected) == Some(want) && ParseStatement(line) == Some(got)
    ensures StatementMatches(Some(expected), line) <==> Accepts(want, got)
  {
  }

  /** Main result: the statement printed for one speed is accepted for another exactly when they are equal. */
  lemma PrintedMatchesOnlyItself(g: int, h: int)
    requires 0 < g && 0 < h
    ensures StatementMatches(ExpectedStatement(g), ExpectedStatement(h).value) <==> g == h
  {
    ExpectedParses(g);
    ExpectedParses(h);
    var expected, line := ExpectedStatement(g).value, ExpectedStatement(h).value;
    ParsedFormsDecide(expected, line, ParseStatement(expected).value, ParseStatement(line).value);
  }

  lemma CanonicalParses(h: nat)
    ensures ParseStatement(CanonicalStatement(h)) == Some(Forced(1000 * h))
  {
    ParseForced(1000 * h, "full");
  }

  /** The switch's plain Mbps rendering is accepted for exactly the speed it renders, except that 100 never is. */
  lemma CanonicalMatches(g: int, h: nat)
    requires 0 < g
    ensures StatementMatches(ExpectedStatement(g), CanonicalStatement(h)) <==> g == h && g != 100
  {
    ExpectedParses(g);
    CanonicalParses(h);
    ParsedFormsDecide(ExpectedStatement(g).value, CanonicalStatement(h),
                      ParseStatement(ExpectedStatement(g).value).value, Forced(1000 * h));
  }

  lemma PlainAutoParses()
    ensures ParseStatement("speed auto") == Some(Auto(""))
  {
    AfterWordOf("speed", " auto");
    assert "speed" + " auto" == "speed auto";
    AfterSpaceOf("auto");
    assert " " + "auto" == " auto";
    AfterWordOf("auto", "");
    assert "auto" + "" == "auto";
  }

  /** An automatic statement without qualifier is accepted for exactly the speed that is printed as automatic. */
  lemma PlainAutoMatches(g: int)
    requires 0 < g
    ensures StatementMatches(ExpectedStatement(g), "speed auto") <==> g == 100
  {
    ExpectedParses(g);
    PlainAutoParses();
    var expected := ExpectedStatement(g).value;
    ParsedFormsDecide(expected, "speed auto", ParseStatement(expected).value, Auto(""));
  }
}
