/** The string handling the converter relies on: `str.strip("[]")`,
    `str.split()` with no separator, and `str(int)` for instrument names. */
module Text {

  /** A character that `strip("[]")` removes from either end. */
  predicate IsBracket(c: char) {
    c == '[' || c == ']'
  }

  /** Python's `str.isspace` set, on which `str.split()` without a separator
      breaks the text: the ASCII controls TAB..CR and FS..US, the space, NEL,
      NO-BREAK SPACE and the Unicode space separators. */
  predicate IsSpace(c: char) {
    var n := c as int;
    || (9 <= n <= 13)
    || (28 <= n <= 32)
    || n == 0x85 || n == 0xA0 || n == 0x1680
    || (0x2000 <= n <= 0x200A)
    || n == 0x2028 || n == 0x2029 || n == 0x202F || n == 0x205F || n == 0x3000
  }

  predicate AllSpace(s: string) {
    forall k :: 0 <= k < |s| ==> IsSpace(s[k])
  }

  predicate NoSpace(s: string) {
    forall k :: 0 <= k < |s| ==> !IsSpace(s[k])
  }

  // ---------------------------------------------------------------------
  // strip("[]")
  // ---------------------------------------------------------------------

  /** `r` is a suffix of `s` that does not start with a bracket, and only
      brackets come before it. */
  ghost predicate LeftStripped(s: string, r: string) {
    && |r| <= |s| && r == s[|s| - |r|..]
    && (forall k :: 0 <= k < |s| - |r| ==> IsBracket(s[k]))
    && (|r| > 0 ==> !IsBracket(r[0]))
  }

  /** `r` is a prefix of `s` that does not end with a bracket, and only
      brackets come after it. */
  ghost predicate RightStripped(s: string, r: string) {
    && |r| <= |s| && r == s[..|r|]
    && (forall k :: |r| <= k < |s| ==> IsBracket(s[k]))
    && (|r| > 0 ==> !IsBracket(r[|r| - 1]))
  }

  /** Removes every leading bracket: the result is the longest suffix of `s`
      that does not start with a bracket. */
  function StripLeft(s: string): (r: string)
    ensures LeftStripped(s, r)
    decreases |s|
  {
    if |s| > 0 && IsBracket(s[0]) then StripLeft(s[1..]) else s
  }

  /** Removes every trailing bracket: the result is the longest prefix of `s`
      that does not end with a bracket. */
  function StripRight(s: string): (r: string)
    ensures RightStripped(s, r)
    decreases |s|
  {
    if |s| > 0 && IsBracket(s[|s| - 1]) then StripRight(s[..|s| - 1]) else s
  }

  /** `r` is the slice of `s` starting at `i` such that only brackets lie
      outside it and neither of its ends is a bracket. */
  ghost predicate StrippedAt(s: string, i: int, r: string) {
    && 0 <= i && i + |r| <= |s|
    && r == s[i..i + |r|]
    && (forall k :: 0 <= k < i ==> IsBracket(s[k]))
    && (forall k :: i + |r| <= k < |s| ==> IsBracket(s[k]))
    && (|r| > 0 ==> !IsBracket(r[0]) && !IsBracket(r[|r| - 1]))
  }

  /** Python's `s.strip("[]")`: all leading and trailing brackets go, however
      many there are; brackets inside the text stay. */
  function StripBrackets(s: string): (r: string)
    ensures StrippedAt(s, |s| - |StripLeft(s)|, r)
  {
    var t := StripLeft(s);
    var r := StripRight(t);
    StripParts(s, t, r);
    r
  }

  /** Stripping the front of `s` to `t` and then the back of `t` to `r`
      leaves `r` as the stripped slice of `s`. */
  lemma StripParts(s: string, t: string, r: string)
    requires LeftStripped(s, t) && RightStripped(t, r)
    ensures StrippedAt(s, |s| - |t|, r)
  {
    var i := |s| - |t|;
    forall k | 0 <= k < |r|
      ensures r[k] == s[i + k]
    {
      assert r[k] == t[k];
    }
    assert r == s[i..i + |r|];
    forall k | i + |r| <= k < |s|
      ensures IsBracket(s[k])
    {
      assert s[k] == t[k - i];
    }
  }

  /** The stripped text is the only slice with brackets outside and no
      bracket at either end, so `StripBrackets` is fully determined by
      `StrippedAt`. */
  lemma StripBracketsUnique(s: string, i: int, r: string)
    requires StrippedAt(s, i, r)
    ensures r == StripBrackets(s)
  {
  }

  /** Text made only of brackets strips to nothing. */
  lemma StripAllBrackets(s: string)
    requires forall k :: 0 <= k < |s| ==> IsBracket(s[k])
    ensures StripBrackets(s) == []
  {
    StripBracketsUnique(s, 0, []);
  }

  // ---------------------------------------------------------------------
  // split()
  // ---------------------------------------------------------------------

  /** Drops the leading whitespace run. */
  function DropSpaces(s: string): (r: string)
    ensures |r| <= |s| && r == s[|s| - |r|..]
    ensures AllSpace(s[..|s| - |r|])
    ensures |r| > 0 ==> !IsSpace(r[0])
    decreases |s|
  {
    if |s| > 0 && IsSpace(s[0]) then
      var r := DropSpaces(s[1..]);
      DropStep(s, r);
      r
    else s
  }

  /** A whitespace run after a leading whitespace character extends it. */
  lemma DropStep(s: string, r: string)
    requires |s| > 0 && IsSpace(s[0])
    requires |r| <= |s| - 1 && r == s[1..][|s| - 1 - |r|..]
    requires AllSpace(s[1..][..|s| - 1 - |r|])
    ensures r == s[|s| - |r|..]
    ensures AllSpace(s[..|s| - |r|])
  {
    var n := |s| - |r|;
    assert s[..n] == [s[0]] + s[1..][..n - 1];
  }

  /** The longest prefix of `s` without whitespace. */
  function TakeWord(s: string): (w: string)
    ensures |w| <= |s| && w == s[..|w|]
    ensures NoSpace(w)
    ensures |w| < |s| ==> IsSpace(s[|w|])
    decreases |s|
  {
    if |s| > 0 && !IsSpace(s[0]) then
      var w := TakeWord(s[1..]);
      TakeStep(s, w);
      [s[0]] + w
    else []
  }

  /** A word after a leading non-whitespace character extends it. */
  lemma TakeStep(s: string, w: string)
    requires |s| > 0 && !IsSpace(s[0])
    requires |w| <= |s| - 1 && w == s[1..][..|w|]
    requires NoSpace(w)
    requires |w| < |s| - 1 ==> IsSpace(s[1..][|w|])
    ensures var u := [s[0]] + w;
      && |u| <= |s| && u == s[..|u|]
      && NoSpace(u)
      && (|u| < |s| ==> IsSpace(s[|u|]))
  {
    var u := [s[0]] + w;
    assert u == s[..|u|];
    assert forall k :: 1 <= k < |u| ==> u[k] == w[k - 1];
  }

  /** Non-empty pieces without whitespace, as `Split` returns them. */
  predicate Words(ws: seq<string>) {
    forall k :: 0 <= k < |ws| ==> |ws[k]| > 0 && NoSpace(ws[k])
  }

  /** Python's `s.split()` with no separator: the maximal whitespace-free
      runs of `s`, in order; runs of whitespace of any length separate them
      and no empty piece is produced. */
  function Split(s: string): (ws: seq<string>)
    ensures Words(ws)
    decreases |s|
  {
    var t := DropSpaces(s);
    if |t| == 0 then []
    else
      var w := TakeWord(t);
      FirstWordNonEmpty(t);
      var rest := Split(t[|w|..]);
      WordsCons(w, rest);
      [w] + rest
  }

  /** Text that starts with a non-whitespace character starts with a word. */
  lemma FirstWordNonEmpty(t: string)
    requires |t| > 0 && !IsSpace(t[0])
    ensures |TakeWord(t)| > 0
  {
  }

  lemma WordsCons(w: string, ws: seq<string>)
    requires |w| > 0 && NoSpace(w) && Words(ws)
    ensures Words([w] + ws)
  {
    assert forall k :: 1 <= k <= |ws| ==> ([w] + ws)[k] == ws[k - 1];
  }

  /** The words `ws` laid out with the separators `seps` around and between
      them: `seps[0] + ws[0] + seps[1] + ... + ws[n-1] + seps[n]`. */
  function Interleave(seps: seq<string>, ws: seq<string>): string
    requires |seps| == |ws| + 1
    decreases |ws|
  {
    if |ws| == 0 then seps[0]
    else seps[0] + ws[0] + Interleave(seps[1..], ws[1..])
  }

  /** Separators made of whitespace, non-empty between two words, and words
      that are non-empty and free of whitespace. */
  ghost predicate WellSeparated(seps: seq<string>, ws: seq<string>) {
    && |seps| == |ws| + 1
    && (forall k :: 0 <= k < |seps| ==> AllSpace(seps[k]))
    && (forall k :: 0 < k < |ws| ==> |seps[k]| > 0)
    && Words(ws)
  }

  lemma DropSpacesAfterSpace(a: string, b: string)
    requires AllSpace(a)
    requires |b| == 0 || !IsSpace(b[0])
    ensures DropSpaces(a + b) == b
  {
    var s := a + b;
    var r := DropSpaces(s);
    var n := |s| - |r|;
    assert forall k :: 0 <= k < n ==> IsSpace(s[k]) by {
      assert forall k :: 0 <= k < n ==> s[..n][k] == s[k];
    }
    assert forall k :: 0 <= k < |a| ==> IsSpace(s[k]);
    assert |b| > 0 ==> s[|a|] == b[0];
    assert |r| > 0 ==> s[n] == r[0];
  }

  lemma TakeWordBeforeSpace(w: string, b: string)
    requires NoSpace(w)
    requires |b| == 0 || IsSpace(b[0])
    ensures TakeWord(w + b) == w
  {
    var s := w + b;
    var u := TakeWord(s);
    assert forall k :: 0 <= k < |u| ==> !IsSpace(s[k]) by {
      assert forall k :: 0 <= k < |u| ==> u[k] == s[k];
    }
    assert forall k :: 0 <= k < |w| ==> !IsSpace(s[k]);
    assert |b| > 0 ==> s[|w|] == b[0];
  }

  /** `Interleave` begins with its first separator. */
  lemma InterleaveStarts(seps: seq<string>, ws: seq<string>)
    requires |seps| == |ws| + 1
    ensures |seps[0]| <= |Interleave(seps, ws)|
    ensures Interleave(seps, ws)[..|seps[0]|] == seps[0]
  {
  }

  /** One step of `Split`: after a whitespace run, a word that ends at
      whitespace or at the end of the text is the first piece. */
  lemma SplitStep(lead: string, w: string, rest: string)
    requires AllSpace(lead) && |w| > 0 && NoSpace(w)
    requires |rest| == 0 || IsSpace(rest[0])
    ensures Split(lead + (w + rest)) == [w] + Split(rest)
  {
    DropSpacesAfterSpace(lead, w + rest);
    TakeWordBeforeSpace(w, rest);
    assert (w + rest)[|w|..] == rest;
  }

  /** Dropping the first word and separator keeps the layout well
      separated. */
  lemma WellSeparatedTail(seps: seq<string>, ws: seq<string>)
    requires WellSeparated(seps, ws) && |ws| > 0
    ensures WellSeparated(seps[1..], ws[1..])
  {
    assert forall k :: 0 <= k < |seps| - 1 ==> seps[1..][k] == seps[k + 1];
    assert forall k :: 0 <= k < |ws| - 1 ==> ws[1..][k] == ws[k + 1];
  }

  /** In a well-separated layout, what follows the first word is empty or
      starts with whitespace. */
  lemma AfterFirstWord(seps: seq<string>, ws: seq<string>)
    requires WellSeparated(seps, ws) && |ws| > 0
    ensures var rest := Interleave(seps[1..], ws[1..]);
      && Interleave(seps, ws) == seps[0] + (ws[0] + rest)
      && (|rest| == 0 || IsSpace(rest[0]))
  {
    var rest := Interleave(seps[1..], ws[1..]);
    assert Interleave(seps, ws) == seps[0] + ws[0] + rest;
    assert seps[0] + ws[0] + rest == seps[0] + (ws[0] + rest);
    var next := seps[1..][0];
    assert next == seps[1] && AllSpace(next);
    InterleaveStarts(seps[1..], ws[1..]);
    if |next| > 0 {
      assert rest[0] == next[0];
    } else {
      assert |ws| == 1;
      assert rest == next;
    }
  }

  /** Whitespace alone splits into no pieces at all. */
  lemma SplitAllSpace(s: string)
    requires AllSpace(s)
    ensures Split(s) == []
  {
    DropSpacesAfterSpace(s, []);
    assert s + [] == s;
  }

  /** Splitting text laid out as well-separated words gives back exactly
      those words. */
  lemma {:induction false} SplitInterleave(seps: seq<string>, ws: seq<string>)
    requires WellSeparated(seps, ws)
    ensures Split(Interleave(seps, ws)) == ws
    decreases |ws|
  {
    if |ws| == 0 {
      SplitAllSpace(seps[0]);
    } else {
      WellSeparatedTail(seps, ws);
      SplitInterleave(seps[1..], ws[1..]);
      SplitFirstWord(seps, ws);
    }
  }

  /** A well-separated layout splits into its first word followed by the
      pieces of the rest of the layout. */
  lemma SplitFirstWord(seps: seq<string>, ws: seq<string>)
    requires WellSeparated(seps, ws) && |ws| > 0
    requires Split(Interleave(seps[1..], ws[1..])) == ws[1..]
    ensures Split(Interleave(seps, ws)) == ws
  {
    var rest := Interleave(seps[1..], ws[1..]);
    var lead, w := seps[0], ws[0];
    assert Interleave(seps, ws) == lead + (w + rest) && (|rest| == 0 || IsSpace(rest[0])) by {
      AfterFirstWord(seps, ws);
    }
    assert AllSpace(lead) && |w| > 0 && NoSpace(w);
    assert Split(lead + (w + rest)) == [w] + Split(rest) by {
      SplitStep(lead, w, rest);
    }
    assert ws == [w] + ws[1..];
  }

  /** Prepending a whitespace run and a word to a well-separated layout
      keeps it well separated. */
  lemma LayoutCons(lead: string, w: string, rest: seq<string>, ws: seq<string>)
    requires AllSpace(lead) && |w| > 0 && NoSpace(w)
    requires WellSeparated(rest, ws)
    requires |ws| > 0 ==> |rest[0]| > 0
    ensures WellSeparated([lead] + rest, [w] + ws)
  {
    var seps := [lead] + rest;
    var ws' := [w] + ws;
    assert forall k :: 1 <= k < |seps| ==> seps[k] == rest[k - 1];
    assert forall k :: 1 <= k < |ws'| ==> ws'[k] == ws[k - 1];
  }

  lemma InterleaveCons(lead: string, w: string, rest: seq<string>, ws: seq<string>)
    requires |rest| == |ws| + 1
    ensures Interleave([lead] + rest, [w] + ws) == lead + (w + Interleave(rest, ws))
  {
    assert ([lead] + rest)[1..] == rest;
    assert ([w] + ws)[1..] == ws;
  }

  /** A text whose split has a piece does not consist of whitespace only. */
  lemma SplitNonEmpty(t: string)
    requires |Split(t)| > 0
    ensures |DropSpaces(t)| > 0
  {
  }

  /** A whitespace run, a word and a laid-out remainder make a layout of
      the whole text that `Split` agrees with. */
  lemma SeparatorsCons(s: string, lead: string, w: string, t: string)
    requires s == lead + (w + t)
    requires AllSpace(lead) && |w| > 0 && NoSpace(w)
    requires |t| == 0 || IsSpace(t[0])
    requires LaidOut(t)
    ensures WellSeparated([lead] + Separators(t), Split(s))
    ensures Interleave([lead] + Separators(t), Split(s)) == s
  {
    var rest := Separators(t);
    assert |Split(t)| > 0 ==> |rest[0]| > 0 by {
      if |Split(t)| > 0 {
        SplitNonEmpty(t);
      }
    }
    SplitStep(lead, w, t);
    LayoutCons(lead, w, rest, Split(t));
    InterleaveCons(lead, w, rest, Split(t));
  }

  /** The whitespace runs `Split` discards: the leading run, then the
      separators of what follows the first word. */
  function Separators(s: string): (seps: seq<string>)
    ensures |seps| > 0
    decreases |s|
  {
    var t := DropSpaces(s);
    var lead := s[..|s| - |t|];
    if |t| == 0 then [s]
    else
      var w := TakeWord(t);
      [lead] + Separators(t[|w|..])
  }

  /** A text of whitespace only is its own single separator. */
  lemma SeparatorsOfSpace(s: string)
    requires |DropSpaces(s)| == 0
    ensures WellSeparated(Separators(s), Split(s))
    ensures Interleave(Separators(s), Split(s)) == s
    ensures Separators(s)[0] == s[..|s| - |DropSpaces(s)|]
  {
    assert s[..|s|] == s;
    assert Split(s) == [] && Separators(s) == [s];
  }

  /** The text after the first word of `s`, which `Split` and
      `Separators` continue on. */
  function AfterWord(s: string): (t': string)
    ensures |t'| < |s| || |DropSpaces(s)| == 0
  {
    var t := DropSpaces(s);
    t[|TakeWord(t)|..]
  }

  /** `Separators(s)` lays the words of `Split(s)` out as `s`, well
      separated, starting with the leading whitespace run of `s`. */
  ghost predicate LaidOut(s: string) {
    && WellSeparated(Separators(s), Split(s))
    && Interleave(Separators(s), Split(s)) == s
    && Separators(s)[0] == s[..|s| - |DropSpaces(s)|]
  }

  /** Laying the words of `Split(s)` out with `Separators(s)` gives back
      `s`, and that layout is well separated. */
  lemma {:induction false} SeparatorsLayout(s: string)
    ensures LaidOut(s)
    decreases |s|
  {
    if |DropSpaces(s)| == 0 {
      SeparatorsOfSpace(s);
    } else {
      SeparatorsLayout(AfterWord(s));
      SeparatorsStep(s);
    }
  }

  /** One step of `SeparatorsLayout`: a layout of the text after the first
      word extends to a layout of the whole text. */
  lemma SeparatorsStep(s: string)
    requires |DropSpaces(s)| > 0
    requires LaidOut(AfterWord(s))
    ensures LaidOut(s)
  {
    var t := DropSpaces(s);
    var lead := s[..|s| - |t|];
    SeparatorsUnfold(s);
    FirstWordLayout(s);
    FirstWordNonEmpty(t);
    SeparatorsCons(s, lead, TakeWord(t), AfterWord(s));
  }

  /** `Separators` of a text with a word: its leading whitespace run, then
      the separators after the first word. */
  lemma SeparatorsUnfold(s: string)
    requires |DropSpaces(s)| > 0
    ensures Separators(s) == [s[..|s| - |DropSpaces(s)|]] + Separators(AfterWord(s))
  {
  }

  /** A text with a word is its leading whitespace, its first word and the
      rest, which is empty or starts with whitespace. */
  lemma FirstWordLayout(s: string)
    requires |DropSpaces(s)| > 0
    ensures var t := DropSpaces(s);
      && s == s[..|s| - |t|] + (TakeWord(t) + AfterWord(s))
      && (|AfterWord(s)| == 0 || IsSpace(AfterWord(s)[0]))
  {
    WordParts(s, DropSpaces(s), TakeWord(DropSpaces(s)));
  }

  /** A suffix `t` of `s` and a prefix `w` of `t` that ends at whitespace
      or at the end cut `s` into three parts. */
  lemma WordParts(s: string, t: string, w: string)
    requires |t| <= |s| && t == s[|s| - |t|..]
    requires |w| <= |t| && w == t[..|w|]
    requires |w| < |t| ==> IsSpace(t[|w|])
    ensures s == s[..|s| - |t|] + (w + t[|w|..])
    ensures |t[|w|..]| == 0 || IsSpace(t[|w|..][0])
  {
    assert t == w + t[|w|..];
    assert s == s[..|s| - |t|] + t;
  }

  /** Every text is the words `Split` returns laid out with whitespace
      separators: together with `SplitInterleave` this makes `Split` the
      exact inverse of laying out words. */
  lemma SplitDecomposes(s: string)
    ensures exists seps :: WellSeparated(seps, Split(s)) && Interleave(seps, Split(s)) == s
  {
    SeparatorsLayout(s);
    assert WellSeparated(Separators(s), Split(s)) && Interleave(Separators(s), Split(s)) == s;
  }

  // ---------------------------------------------------------------------
  // str(int)
  // ---------------------------------------------------------------------

  predicate IsDigit(c: char) {
    '0' <= c <= '9'
  }

  function DigitChar(d: int): (c: char)
    requires 0 <= d < 10
    ensures IsDigit(c)
  {
    ('0' as int + d) as char
  }

  /** Decimal digits of `n`, most significant first, without leading zeros. */
  function NatToDigits(n: nat): (s: string)
    ensures |s| > 0
    ensures forall k :: 0 <= k < |s| ==> IsDigit(s[k])
    ensures |s| > 1 ==> s[0] != '0'
    decreases n
  {
    if n < 10 then [DigitChar(n)] else NatToDigits(n / 10) + [DigitChar(n % 10)]
  }

  /** Python's `str(n)` for an integer: optional minus sign, then digits. */
  function IntToString(n: int): (s: string)
    ensures |s| > 0
    ensures n < 0 <==> s[0] == '-'
  {
    if n < 0 then "-" + NatToDigits(-n) else NatToDigits(n)
  }

  /** The value of a string of decimal digits. */
  function DigitsValue(s: string): nat
    requires forall k :: 0 <= k < |s| ==> IsDigit(s[k])
    decreases |s|
  {
    if |s| == 0 then 0
    else
      assert IsDigit(s[|s| - 1]);
      DigitsValue(s[..|s| - 1]) * 10 + (s[|s| - 1] as int - '0' as int)
  }

  /** Reads back an optionally signed decimal numeral. */
  function ParseInt(s: string): int
    requires |s| > 0
    requires s[0] == '-' ==> forall k :: 1 <= k < |s| ==> IsDigit(s[k])
    requires s[0] != '-' ==> forall k :: 0 <= k < |s| ==> IsDigit(s[k])
  {
    if s[0] == '-' then -(DigitsValue(s[1..]) as int) else DigitsValue(s)
  }

  lemma {:induction false} NatToDigitsRoundTrip(n: nat)
    ensures DigitsValue(NatToDigits(n)) == n
    decreases n
  {
    if n >= 10 {
      var s := NatToDigits(n);
      assert s[..|s| - 1] == NatToDigits(n / 10);
      NatToDigitsRoundTrip(n / 10);
    }
  }

  /** The name suffix written for a unit identifies it: reading it back
      gives the identifier. */
  lemma IntToStringRoundTrip(n: int)
    ensures ParseInt(IntToString(n)) == n
  {
    NatToDigitsRoundTrip(if n < 0 then -n else n);
    if n < 0 {
      assert IntToString(n)[1..] == NatToDigits(-n);
    }
  }

  /** Different identifiers give different names. */
  lemma IntToStringInjective(a: int, b: int)
    requires IntToString(a) == IntToString(b)
    ensures a == b
  {
    IntToStringRoundTrip(a);
    IntToStringRoundTrip(b);
  }
}
