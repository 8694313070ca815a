/** Worked examples of the PIN formatter: what it makes of strings of one
    to sixteen digits, built up one group of four at a time, and the
    concrete entries "1234567890123456", "12345", "1234" and
    "abc123!!4567". */
module PinExamples {
  import opened PinFormat

  /** Inserting dashes after a complete group of four. */
  lemma InsertDashesAfterGroup(g: string, rest: string)
    requires |g| == GroupSize
    ensures InsertDashes(g + rest) == g + "-" + InsertDashes(rest)
  {
    assert (g + rest)[..GroupSize] == g;
    assert (g + rest)[GroupSize..] == rest;
  }

  /** A dash at the end is the one that is dropped. */
  lemma DropTrailingDashOf(s: string)
    ensures DropTrailingDash(s + "-") == s
  {
    assert (s + "-")[..|s|] == s;
  }

  /** One to four digits are shown as they are, with no dash. */
  lemma FormatOneGroup(g: string)
    requires AllDigits(g) && 1 <= |g| <= GroupSize
    ensures FormatSpidrPin(g) == g
  {
    DigitsOfDigits(g);
    if |g| == GroupSize {
      InsertDashesAfterGroup(g, "");
      assert g + "" == g;
      DropTrailingDashOf(g);
    }
  }

  /** At most sixteen digits are shown in their groups of four. */
  lemma FormatOfDigitString(d: string)
    requires AllDigits(d) && |d| <= MaxDigits
    ensures FormatSpidrPin(d) == Join(Chunks(d))
  {
    DigitsOfDigits(d);
    FormatIsGroupedDigits(d);
  }

  /** A full group of four comes off the front as a chunk of its own. */
  lemma ChunksAfterGroup(g: string, rest: string)
    requires |g| == GroupSize && rest != []
    ensures Chunks(g + rest) == [g] + Chunks(rest)
  {
    assert (g + rest)[..GroupSize] == g;
    assert (g + rest)[GroupSize..] == rest;
  }

  /** Four groups are joined by exactly three dashes. */
  lemma JoinFour(g1: string, g2: string, g3: string, g4: string)
    ensures Join([g1, g2, g3, g4]) == g1 + "-" + g2 + "-" + g3 + "-" + g4
  {
    assert [g3, g4][1..] == [g4];
    assert Join([g3, g4]) == g3 + "-" + g4;
    assert [g2, g3, g4][1..] == [g3, g4];
    assert Join([g2, g3, g4]) == g2 + "-" + (g3 + "-" + g4);
    assert [g1, g2, g3, g4][1..] == [g2, g3, g4];
    assert Join([g1, g2, g3, g4]) == g1 + "-" + (g2 + "-" + (g3 + "-" + g4));
  }

  /** Three full groups followed by a shorter or full last one split back
      into exactly those four groups. */
  lemma ChunksOfFourParts(g1: string, g2: string, g3: string, g4: string)
    requires |g1| == |g2| == |g3| == GroupSize && 1 <= |g4| <= GroupSize
    ensures Chunks(g1 + g2 + g3 + g4) == [g1, g2, g3, g4]
  {
    assert g1 + g2 + g3 + g4 == g1 + (g2 + (g3 + g4));
    ChunksAfterGroup(g3, g4);
    ChunksAfterGroup(g2, g3 + g4);
    ChunksAfterGroup(g1, g2 + (g3 + g4));
  }

  /** Thirteen to sixteen digits: three full groups, then the rest; sixteen
      digits give three dashes and no trailing dash. */
  lemma FormatFourGroups(g1: string, g2: string, g3: string, g4: string)
    requires AllDigits(g1) && AllDigits(g2) && AllDigits(g3) && AllDigits(g4)
    requires |g1| == |g2| == |g3| == GroupSize && 1 <= |g4| <= GroupSize
    ensures FormatSpidrPin(g1 + g2 + g3 + g4) == g1 + "-" + g2 + "-" + g3 + "-" + g4
  {
    AllDigitsAppend(g1, g2);
    AllDigitsAppend(g1 + g2, g3);
    AllDigitsAppend(g1 + g2 + g3, g4);
    FormatOfDigitString(g1 + g2 + g3 + g4);
    ChunksOfFourParts(g1, g2, g3, g4);
    JoinFour(g1, g2, g3, g4);
  }

  /** Five to eight digits: a full group, a dash, and the rest. */
  lemma FormatTwoGroups(g1: string, g2: string)
    requires AllDigits(g1) && |g1| == GroupSize
    requires AllDigits(g2) && 1 <= |g2| <= GroupSize
    ensures FormatSpidrPin(g1 + g2) == g1 + "-" + g2
  {
    AllDigitsAppend(g1, g2);
    FormatOfDigitString(g1 + g2);
    ChunksAfterGroup(g1, g2);
    assert [g1] + Chunks(g2) == [g1, g2];
  }

  // The concrete entries. Each literal fact (how a literal splits into
  // groups, which literal groups are digits) sits in a small lemma of its
  // own, so that the proofs of the examples below reason about the groups
  // and never unfold the formatter on a whole literal.

  lemma SixteenDigitsParts(pin: string, shown: string)
    requires pin == "1234567890123456" && shown == "1234-5678-9012-3456"
    ensures pin == "1234" + "5678" + "9012" + "3456"
    ensures shown == "1234" + "-" + "5678" + "-" + "9012" + "-" + "3456"
    ensures AllDigits("1234") && AllDigits("5678") && AllDigits("9012") && AllDigits("3456")
  {
  }

  /** "1234567890123456" is shown as "1234-5678-9012-3456". */
  lemma FormatExampleFull(pin: string)
    requires pin == "1234567890123456"
    ensures FormatSpidrPin(pin) == "1234-5678-9012-3456"
  {
    SixteenDigitsParts(pin, "1234-5678-9012-3456");
    FormatFourGroups("1234", "5678", "9012", "3456");
  }

  /** "12345" is shown as "1234-5". */
  lemma FormatExampleFive(pin: string)
    requires pin == "12345"
    ensures FormatSpidrPin(pin) == "1234-5"
  {
    assert pin == "1234" + "5";
    assert AllDigits("1234") && AllDigits("5");
    FormatTwoGroups("1234", "5");
  }

  /** "1234" is shown as it is. */
  lemma FormatExampleFour(pin: string)
    requires pin == "1234"
    ensures FormatSpidrPin(pin) == "1234"
  {
    assert AllDigits(pin);
    FormatOneGroup(pin);
  }

  lemma MixedParts(value: string)
    requires value == "abc123!!4567"
    ensures value == "abc" + "123" + "!!" + "4567"
    ensures Digits("abc") == [] && Digits("123") == "123"
    ensures Digits("!!") == [] && Digits("4567") == "4567"
  {
  }

  /** The digits of "abc123!!4567" are "1234567". */
  lemma MixedDigits(value: string)
    requires value == "abc123!!4567"
    ensures Digits(value) == "1234" + "567"
  {
    MixedParts(value);
    DigitsAppend("abc" + "123" + "!!", "4567");
    DigitsAppend("abc" + "123", "!!");
    DigitsAppend("abc", "123");
    assert [] + "123" + [] + "4567" == "1234" + "567";
  }

  /** "abc123!!4567" is shown as "1234-567". */
  lemma FormatExampleMixed(value: string)
    requires value == "abc123!!4567"
    ensures FormatSpidrPin(value) == "1234-567"
  {
    FormatIgnoresNonDigits(value);
    MixedDigits(value);
    assert AllDigits("1234") && AllDigits("567");
    FormatTwoGroups("1234", "567");
  }
}
