/** The Spidr PIN formatter: the value typed into the PIN field is reduced to
    its decimal digits, cut to sixteen of them, and shown in dash-separated
    groups of four ("1234-5678-9012-3456").

    FormatSpidrPin follows the formatter's chain of regular-expression
    replacements step by step; Chunks and Join give an independent reference
    definition of the same output (split into groups of four, join with '-'),
    and the lemmas below state the output's alphabet, shape, length bound,
    digit content and idempotence. */
module PinFormat {

  /** Most digits a PIN keeps; the rest of the input is dropped. */
  const MaxDigits: nat := 16

  /** Digits per dash-separated group. */
  const GroupSize: nat := 4

  /** Longest formatted PIN: sixteen digits and three dashes. */
  const MaxFormattedLength: nat := 19

  /** A decimal digit, the complement of the regular-expression class `\D`. */
  predicate IsDigit(c: char) {
    '0' <= c <= '9'
  }

  predicate AllDigits(s: string) {
    forall i :: 0 <= i < |s| ==> IsDigit(s[i])
  }

  /** Every character is a decimal digit or a dash. */
  predicate DigitsAndDashes(s: string) {
    forall i :: 0 <= i < |s| ==> IsDigit(s[i]) || s[i] == '-'
  }

  // ---------------------------------------------------------------------------
  // The formatter, one function per replacement step
  // ---------------------------------------------------------------------------

  /** Removing every non-digit (`replace(/\D/g, "")`) leaves the digits of
      `s` in their original order. */
  function Digits(s: string): string
  {
    if s == [] then []
    else (if IsDigit(s[0]) then [s[0]] else []) + Digits(s[1..])
  }

  /** Keeping the first sixteen characters (`slice(0, 16)`). */
  function Truncate(d: string): (r: string)
    ensures r <= d
    ensures |r| == if |d| <= MaxDigits then |d| else MaxDigits
  {
    if |d| <= MaxDigits then d else d[..MaxDigits]
  }

  /** A dash after every complete run of four characters
      (`replace(/(.{4})/g, "$1-")`); a shorter tail is left as it is. */
  function InsertDashes(d: string): (r: string)
    decreases |d|
  {
    if |d| < GroupSize then d
    else d[..GroupSize] + "-" + InsertDashes(d[GroupSize..])
  }

  /** One dash at the very end is removed (`replace(/-$/, "")`). */
  function DropTrailingDash(s: string): (r: string)
  {
    if |s| > 0 && s[|s| - 1] == '-' then s[..|s| - 1] else s
  }

  /** The PIN formatter applied on every keystroke in the PIN field. */
  function FormatSpidrPin(value: string): string
  {
    DropTrailingDash(InsertDashes(Truncate(Digits(value))))
  }

  /** A stored PIN is canonical when formatting it again changes nothing. */
  predicate IsCanonicalPin(s: string) {
    FormatSpidrPin(s) == s
  }

  // ---------------------------------------------------------------------------
  // Reference definition: groups of four joined by single dashes
  // ---------------------------------------------------------------------------

  /** Consecutive groups of four, the last one possibly shorter. */
  function Chunks(d: string): seq<string>
    decreases |d|
  {
    if |d| == 0 then []
    else if |d| <= GroupSize then [d]
    else [d[..GroupSize]] + Chunks(d[GroupSize..])
  }

  /** The groups separated by single dashes, with no dash before the first
      or after the last. */
  function Join(gs: seq<string>): string
  {
    if |gs| == 0 then ""
    else if |gs| == 1 then gs[0]
    else gs[0] + "-" + Join(gs[1..])
  }

  /** The groups written one after another. */
  function Concat(gs: seq<string>): string
  {
    if |gs| == 0 then "" else gs[0] + Concat(gs[1..])
  }

  /** Non-empty groups of at most four digits, every group but the last
      holding exactly four. */
  predicate WellGrouped(gs: seq<string>) {
    forall i :: 0 <= i < |gs| ==>
      1 <= |gs[i]| <= GroupSize && AllDigits(gs[i]) && (i < |gs| - 1 ==> |gs[i]| == GroupSize)
  }

  /** The characters of `s` other than dashes, in order. */
  function RemoveDashes(s: string): string
  {
    if s == [] then []
    else (if s[0] == '-' then [] else [s[0]]) + RemoveDashes(s[1..])
  }

  // ---------------------------------------------------------------------------
  // Lemmas about the filters
  // ---------------------------------------------------------------------------

  /** Only digits are kept, and no more characters than there were. */
  lemma {:induction false} DigitsAreDigits(s: string)
    ensures AllDigits(Digits(s))
    ensures |Digits(s)| <= |s|
  {
    if s != [] {
      DigitsAreDigits(s[1..]);
    }
  }

  /** Keeping the digits distributes over concatenation. */
  lemma {:induction false} DigitsAppend(a: string, b: string)
    ensures Digits(a + b) == Digits(a) + Digits(b)
  {
    if a == [] {
      assert a + b == b;
    } else {
      var head := if IsDigit(a[0]) then [a[0]] else [];
      assert (a + b)[0] == a[0];
      assert (a + b)[1..] == a[1..] + b;
      DigitsAppend(a[1..], b);
      calc {
        Digits(a + b);
        head + Digits(a[1..] + b);
        head + (Digits(a[1..]) + Digits(b));
        (head + Digits(a[1..])) + Digits(b);
        Digits(a) + Digits(b);
      }
    }
  }

  /** Digits leaves a string of digits as it is. */
  lemma {:induction false} DigitsOfDigits(s: string)
    requires AllDigits(s)
    ensures Digits(s) == s
  {
    if s != [] {
      DigitsOfDigits(s[1..]);
    }
  }

  /** A string is made of digits exactly when keeping its digits changes
      nothing. */
  lemma DigitsExactlyWhenDigits(s: string)
    ensures AllDigits(s) <==> Digits(s) == s
  {
    DigitsAreDigits(s);
    if AllDigits(s) {
      DigitsOfDigits(s);
    }
  }

  /** Two strings of digits put together are a string of digits. */
  lemma AllDigitsAppend(a: string, b: string)
    requires AllDigits(a) && AllDigits(b)
    ensures AllDigits(a + b)
  {
  }

  /** On a string of digits and dashes, removing the dashes is keeping the
      digits. */
  lemma {:induction false} RemoveDashesIsDigits(s: string)
    requires DigitsAndDashes(s)
    ensures RemoveDashes(s) == Digits(s)
  {
    if s != [] {
      RemoveDashesIsDigits(s[1..]);
    }
  }

  // ---------------------------------------------------------------------------
  // Lemmas about the reference definition
  // ---------------------------------------------------------------------------

  /** Splitting digits into chunks gives well-formed groups that put back
      together are the digits, ⌈n/4⌉ of them. */
  lemma {:induction false} ChunksWellGrouped(d: string)
    requires AllDigits(d)
    ensures WellGrouped(Chunks(d))
    ensures Concat(Chunks(d)) == d
    ensures |Chunks(d)| == (|d| + GroupSize - 1) / GroupSize
    decreases |d|
  {
    if |d| == 0 {
    } else if |d| <= GroupSize {
      assert Concat([d]) == d + Concat([]);
    } else {
      var rest := d[GroupSize..];
      ChunksWellGrouped(rest);
      var gs := [d[..GroupSize]] + Chunks(rest);
      assert gs[1..] == Chunks(rest);
      assert d == d[..GroupSize] + rest;
      forall i | 0 <= i < |gs|
        ensures 1 <= |gs[i]| <= GroupSize && AllDigits(gs[i]) && (i < |gs| - 1 ==> |gs[i]| == GroupSize)
      {
        if i > 0 {
          assert gs[i] == Chunks(rest)[i - 1];
        }
      }
    }
  }

  /** Joining well-formed groups gives digits and dashes only, whose digits
      are the groups' contents; it is empty exactly when there are no
      groups, has one dash fewer than groups, and never ends in a dash. */
  lemma {:induction false} JoinOfGroups(gs: seq<string>)
    requires WellGrouped(gs)
    ensures DigitsAndDashes(Join(gs))
    ensures Digits(Join(gs)) == Concat(gs)
    ensures Join(gs) == "" <==> gs == []
    ensures gs != [] ==> |Join(gs)| == |Concat(gs)| + |gs| - 1
    ensures Join(gs) != "" ==> IsDigit(Join(gs)[|Join(gs)| - 1])
  {
    if |gs| == 0 {
    } else if |gs| == 1 {
      DigitsOfDigits(gs[0]);
      assert Concat(gs) == gs[0] + Concat([]);
    } else {
      var tail := gs[1..];
      assert WellGrouped(tail) by {
        forall i | 0 <= i < |tail|
          ensures 1 <= |tail[i]| <= GroupSize && AllDigits(tail[i]) && (i < |tail| - 1 ==> |tail[i]| == GroupSize)
        {
          assert tail[i] == gs[i + 1];
        }
      }
      JoinOfGroups(tail);
      var j := Join(gs);
      assert j == gs[0] + "-" + Join(tail);
      DigitsOfDigits(gs[0]);
      DigitsAppend(gs[0] + "-", Join(tail));
      DigitsAppend(gs[0], "-");
      assert Digits("-") == [];
      forall i | 0 <= i < |j| ensures IsDigit(j[i]) || j[i] == '-' {
        if i < |gs[0]| {
          assert j[i] == gs[0][i];
        } else if i > |gs[0]| {
          assert j[i] == Join(tail)[i - |gs[0]| - 1];
        }
      }
      assert j[|j| - 1] == Join(tail)[|Join(tail)| - 1];
    }
  }

  /** The regular-expression chain of the formatter, on digits, is the
      reference definition. */
  lemma {:induction false} DashedIsJoin(d: string)
    requires AllDigits(d)
    ensures DropTrailingDash(InsertDashes(d)) == Join(Chunks(d))
    decreases |d|
  {
    if |d| < GroupSize {
      assert |d| > 0 ==> IsDigit(d[|d| - 1]);
    } else if |d| == GroupSize {
      assert d[GroupSize..] == [];
      assert InsertDashes(d) == d + "-";
    } else {
      var rest := d[GroupSize..];
      assert AllDigits(rest) by {
        forall i | 0 <= i < |rest| ensures IsDigit(rest[i]) {
          assert rest[i] == d[i + GroupSize];
        }
      }
      DashedIsJoin(rest);
      var t := InsertDashes(rest);
      var head := d[..GroupSize] + "-";
      assert |t| > 0;
      assert InsertDashes(d) == head + t;
      assert DropTrailingDash(head + t) == head + DropTrailingDash(t);
      var cs := Chunks(d);
      assert cs == [d[..GroupSize]] + Chunks(rest);
      assert |Chunks(rest)| > 0;
      assert cs[1..] == Chunks(rest);
    }
  }

  // ---------------------------------------------------------------------------
  // Properties of the formatter
  // ---------------------------------------------------------------------------

  /** The output is the first sixteen digits of the input in groups of four
      joined by single dashes; every group is non-empty, every group but
      the last has four digits, and there are at most four groups. */
  lemma FormatIsGroupedDigits(value: string)
    ensures FormatSpidrPin(value) == Join(Chunks(Truncate(Digits(value))))
    ensures WellGrouped(Chunks(Truncate(Digits(value))))
    ensures |Chunks(Truncate(Digits(value)))| <= MaxDigits / GroupSize
    ensures Concat(Chunks(Truncate(Digits(value)))) == Truncate(Digits(value))
    ensures Chunks(Truncate(Digits(value))) == [] <==> Digits(value) == ""
  {
    var kept := Truncate(Digits(value));
    DigitsAreDigits(value);
    assert AllDigits(kept) by {
      forall i | 0 <= i < |kept| ensures IsDigit(kept[i]) {
        assert kept[i] == Digits(value)[i];
      }
    }
    DashedIsJoin(kept);
    ChunksWellGrouped(kept);
  }

  /** The output holds only decimal digits and dashes. */
  lemma FormatAlphabet(value: string)
    ensures DigitsAndDashes(FormatSpidrPin(value))
  {
    FormatIsGroupedDigits(value);
    JoinOfGroups(Chunks(Truncate(Digits(value))));
  }

  /** Removing the dashes from the output gives the first min(16, n) digits
      of the input in their original order, n being the number of digits
      the input holds; the output is empty exactly when the input holds no
      digit. */
  lemma FormatKeepsLeadingDigits(value: string)
    ensures var n := |Digits(value)|;
      RemoveDashes(FormatSpidrPin(value)) == Digits(value)[..if n <= MaxDigits then n else MaxDigits]
    ensures Digits(FormatSpidrPin(value)) == Truncate(Digits(value))
    ensures FormatSpidrPin(value) == "" <==> Digits(value) == ""
  {
    var kept := Truncate(Digits(value));
    FormatIsGroupedDigits(value);
    JoinOfGroups(Chunks(kept));
    RemoveDashesIsDigits(FormatSpidrPin(value));
    assert kept == Digits(value)[..|kept|];
  }

  /** The output is at most nineteen characters long and never ends in a
      dash. */
  lemma FormatBounds(value: string)
    ensures |FormatSpidrPin(value)| <= MaxFormattedLength
    ensures FormatSpidrPin(value) != "" ==> FormatSpidrPin(value)[|FormatSpidrPin(value)| - 1] != '-'
  {
    FormatIsGroupedDigits(value);
    JoinOfGroups(Chunks(Truncate(Digits(value))));
  }

  /** Formatting a formatted PIN changes nothing: its dashes are stripped
      and it holds at most sixteen digits already. */
  lemma FormatIdempotent(value: string)
    ensures FormatSpidrPin(FormatSpidrPin(value)) == FormatSpidrPin(value)
  {
    var once := FormatSpidrPin(value);
    FormatKeepsLeadingDigits(value);
    assert Digits(once) == Truncate(Digits(value));
    assert Truncate(Digits(once)) == Digits(once);
  }

  /** Only the input's digits matter: letters, punctuation and dashes are
      dropped before anything else happens. */
  lemma FormatIgnoresNonDigits(value: string)
    ensures FormatSpidrPin(value) == FormatSpidrPin(Digits(value))
  {
    DigitsAreDigits(value);
    DigitsOfDigits(Digits(value));
  }

  /** More than sixteen digits: the seventeenth on are dropped. */
  lemma FormatDropsExcessDigits(d: string)
    requires AllDigits(d) && |d| > MaxDigits
    ensures FormatSpidrPin(d) == FormatSpidrPin(d[..MaxDigits])
  {
    var kept := d[..MaxDigits];
    DigitsOfDigits(d);
    assert AllDigits(kept) by {
      forall i | 0 <= i < |kept| ensures IsDigit(kept[i]) {
        assert kept[i] == d[i];
      }
    }
    DigitsOfDigits(kept);
  }

  /** The canonical PINs are exactly the formatter's outputs. */
  lemma CanonicalIffFormatted(s: string)
    ensures IsCanonicalPin(s) <==> exists x :: FormatSpidrPin(x) == s
  {
    if exists x :: FormatSpidrPin(x) == s {
      var x :| FormatSpidrPin(x) == s;
      FormatIdempotent(x);
    }
  }

  /** A canonical PIN has every property of a formatter output. */
  lemma CanonicalPinShape(s: string)
    requires IsCanonicalPin(s)
    ensures DigitsAndDashes(s)
    ensures |s| <= MaxFormattedLength
    ensures s != "" ==> s[|s| - 1] != '-'
    ensures |RemoveDashes(s)| <= MaxDigits
    ensures s == Join(Chunks(RemoveDashes(s)))
  {
    FormatAlphabet(s);
    FormatBounds(s);
    FormatKeepsLeadingDigits(s);
    FormatIsGroupedDigits(s);
    RemoveDashesIsDigits(s);
  }
}
