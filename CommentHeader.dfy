/** The comment-header readers of the 2-D SVG plotter (GetRadius, GetMinValue,
    GetMaxValue, GetType). Each one looks for the first comment line that
    contains a key, reads that line with an input string stream and keeps the
    token at a fixed position. The conversion of a token to a double is not
    modelled: a numeric field is delivered as the token it would be read from. */
module CommentHeader {

  datatype Option<T> = None | Some(value: T)

  const RADIUS_KEY: string := "Radius"
  const MIN_KEY: string := "min"
  const MAX_KEY: string := "max"
  const DELONE_KEY: string := "Delone"

  /** Token positions read by each extractor (the number of skipped tokens). */
  const RADIUS_FIELD: nat := 4
  const MIN_FIELD: nat := 5
  const MAX_FIELD: nat := 5
  const INTENDED_MAX_FIELD: nat := 6
  const VARIETY_FIELD: nat := 7
  const CENTERING_FIELD: nat := 8

  // ---------------------------------------------------------------------
  // Whitespace tokens, as `>> std::string` delivers them
  // ---------------------------------------------------------------------

  /** White space in the C locale: blank, tab, newline, vertical tab,
      form feed and carriage return. */
  predicate IsSpace(c: char)
  {
    c == ' ' || '\t' <= c <= '\r'
  }

  /** A token: a non-empty run of characters that are not white space. */
  predicate IsWord(w: string)
  {
    w != [] && forall k :: 0 <= k < |w| ==> !IsSpace(w[k])
  }

  predicate AllSpace(s: string)
  {
    forall k :: 0 <= k < |s| ==> IsSpace(s[k])
  }

  /** Length of the longest prefix of `s` free of white space. */
  function WordLength(s: string): (n: nat)
    ensures n <= |s|
    ensures forall k :: 0 <= k < n ==> !IsSpace(s[k])
    ensures n < |s| ==> IsSpace(s[n])
  {
    if s == [] || IsSpace(s[0]) then 0 else 1 + WordLength(s[1..])
  }

  /** The maximal runs of non-white-space characters of `s`, in order. */
  function Tokens(s: string): (ts: seq<string>)
    ensures forall k :: 0 <= k < |ts| ==> IsWord(ts[k])
    decreases |s|
  {
    if s == [] then []
    else if IsSpace(s[0]) then Tokens(s[1..])
    else
      var n := WordLength(s);
      [s[..n]] + Tokens(s[n..])
  }

  /** The tokens that remain after `n` extractions. */
  function Drop(ts: seq<string>, n: nat): seq<string>
  {
    if n <= |ts| then ts[n..] else []
  }

  function NthToken(ts: seq<string>, n: nat): Option<string>
  {
    if n < |ts| then Some(ts[n]) else None
  }

  function NthTokenOrEmpty(ts: seq<string>, n: nat): string
  {
    if n < |ts| then ts[n] else ""
  }

  // ---------------------------------------------------------------------
  // Key search (`std::string::find(key) != npos`)
  // ---------------------------------------------------------------------

  /** `key` occurs somewhere in `line`, case-sensitively. */
  predicate Contains(line: string, key: string)
  {
    exists i :: 0 <= i <= |line| - |key| && OccursAt(line, key, i)
  }

  predicate OccursAt(line: string, key: string, i: nat)
  {
    i + |key| <= |line| && line[i..i + |key|] == key
  }

  /** Index of the first line that contains `key`, if any. */
  function FirstContaining(comments: seq<string>, key: string): (r: Option<nat>)
    ensures r.None? <==> forall j :: 0 <= j < |comments| ==> !Contains(comments[j], key)
    ensures r.Some? ==> r.value < |comments| && Contains(comments[r.value], key)
    ensures r.Some? ==> forall j :: 0 <= j < r.value ==> !Contains(comments[j], key)
  {
    if comments == [] then None
    else if Contains(comments[0], key) then Some(0)
    else
      match FirstContaining(comments[1..], key)
      case None => None
      case Some(i) => Some(i + 1)
  }

  // ---------------------------------------------------------------------
  // What each extractor yields
  // ---------------------------------------------------------------------

  /** The token at position `field` of the first line containing `key`;
      None when no line contains the key or that line is too short. */
  function FieldOfFirst(comments: seq<string>, key: string, field: nat): Option<string>
  {
    match FirstContaining(comments, key)
    case None => None
    case Some(i) => NthToken(Tokens(comments[i]), field)
  }

  function RadiusField(comments: seq<string>): Option<string>
  {
    FieldOfFirst(comments, RADIUS_KEY, RADIUS_FIELD)
  }

  function MinValueField(comments: seq<string>): Option<string>
  {
    FieldOfFirst(comments, MIN_KEY, MIN_FIELD)
  }

  function MaxValueField(comments: seq<string>): Option<string>
  {
    FieldOfFirst(comments, MAX_KEY, MAX_FIELD)
  }

  function IntendedMaxValueField(comments: seq<string>): Option<string>
  {
    FieldOfFirst(comments, MAX_KEY, INTENDED_MAX_FIELD)
  }

  /** Variety and centering of the first "Delone" line, joined by a blank;
      each missing one is empty. */
  function TypeText(comments: seq<string>): string
  {
    match FirstContaining(comments, DELONE_KEY)
    case None => " "
    case Some(i) =>
      var ts := Tokens(comments[i]);
      NthTokenOrEmpty(ts, VARIETY_FIELD) + " " + NthTokenOrEmpty(ts, CENTERING_FIELD)
  }

  // ---------------------------------------------------------------------
  // The input string stream
  // ---------------------------------------------------------------------

  /** An input string stream over one line: a read position and a fail flag.
      Once an extraction has failed every later one fails too. */
  class InputStringStream {
    const text: string
    var pos: nat
    var failed: bool

    ghost predicate Valid()
      reads this
    {
      pos <= |text|
    }

    /** The tokens later extractions will deliver. */
    ghost function Remaining(): seq<string>
      reads this
      requires Valid()
    {
      if failed then [] else Tokens(text[pos..])
    }

    constructor (line: string)
      ensures Valid() && text == line
      ensures Remaining() == Tokens(line)
    {
      text := line;
      pos := 0;
      failed := false;
      new;
      assert text[0..] == text;
    }

    /** `*this >> target` for a std::string: skips white space, then takes the
        next token. When there is none the stream fails and `target` keeps its
        old value. */
    method Extract(target: string) returns (s: string)
      requires Valid()
      modifies this
      ensures Valid()
      ensures failed == (old(Remaining()) == [])
      ensures old(Remaining()) == [] ==> s == target && Remaining() == []
      ensures old(Remaining()) != [] ==> s == old(Remaining())[0] && Remaining() == old(Remaining())[1..]
    {
      if failed {
        return target;
      }
      SkipWhiteSpace();
      if pos == |text| {
        assert text[pos..] == [];
        failed := true;
        return target;
      }
      var start := pos;
      ScanWord();
      s := text[start..pos];
      TokenTaken(text, start, pos);
    }

    /** The sentry of a formatted extraction: advance past white space. */
    method SkipWhiteSpace()
      requires Valid() && !failed
      modifies this`pos
      ensures Valid()
      ensures old(pos) <= pos && (pos == |text| || !IsSpace(text[pos]))
      ensures Tokens(text[pos..]) == Tokens(text[old(pos)..])
    {
      while pos < |text| && IsSpace(text[pos])
        invariant old(pos) <= pos <= |text|
        invariant Tokens(text[pos..]) == Tokens(text[old(pos)..])
      {
        SpaceSkipped(text, pos);
        pos := pos + 1;
      }
    }

    /** Advance over the characters of one token. */
    method ScanWord()
      requires Valid()
      modifies this`pos
      ensures Valid() && old(pos) <= pos
      ensures forall k :: old(pos) <= k < pos ==> !IsSpace(text[k])
      ensures pos < |text| ==> IsSpace(text[pos])
    {
      while pos < |text| && !IsSpace(text[pos])
        invariant old(pos) <= pos <= |text|
        invariant forall k :: old(pos) <= k < pos ==> !IsSpace(text[k])
      {
        pos := pos + 1;
      }
    }

    /** `*this >> value` for a double, with the conversion left out: on
        success the token the number is read from, on failure `target`.
        What the stream holds afterwards is not specified: a numeric read
        may stop inside the token or set the fail flag. */
    method ExtractNumber(target: Option<string>) returns (r: Option<string>)
      requires Valid()
      modifies this
      ensures Valid()
      ensures old(Remaining()) == [] ==> r == target
      ensures old(Remaining()) != [] ==> r == Some(old(Remaining())[0])
    {
      var s := Extract("");
      r := if failed then target else Some(s);
    }

    /** `for (i = 0; i < n; ++i) *this >> s;` with the tokens discarded. */
    method Skip(n: nat)
      requires Valid()
      modifies this
      ensures Valid()
      ensures Remaining() == Drop(old(Remaining()), n)
    {
      var s := "";
      for k := 0 to n
        invariant Valid()
        invariant Remaining() == Drop(old(Remaining()), k)
      {
        s := Extract(s);
      }
    }
  }

  lemma SpaceSkipped(text: string, pos: nat)
    requires pos < |text| && IsSpace(text[pos])
    ensures Tokens(text[pos..]) == Tokens(text[pos + 1..])
  {
    assert text[pos..][1..] == text[pos + 1..];
  }

  lemma TokenTaken(text: string, start: nat, end: nat)
    requires start < end <= |text|
    requires forall k :: start <= k < end ==> !IsSpace(text[k])
    requires end < |text| ==> IsSpace(text[end])
    ensures Tokens(text[start..]) == [text[start..end]] + Tokens(text[end..])
  {
    var rest := text[start..];
    forall k | 0 <= k < end - start ensures !IsSpace(rest[k]) {
      assert rest[k] == text[start + k];
    }
    WordAtStart(rest, end - start);
    assert rest[..end - start] == text[start..end];
    assert rest[end - start..] == text[end..];
  }

  /** When a run of `n` non-blank characters opens `s` and is followed by a
      blank or the end, the first token of `s` is that run. */
  lemma WordAtStart(s: string, n: nat)
    requires 0 < n <= |s|
    requires forall k :: 0 <= k < n ==> !IsSpace(s[k])
    requires n < |s| ==> IsSpace(s[n])
    ensures Tokens(s) == [s[..n]] + Tokens(s[n..])
  {
    WordLengthExact(s, n);
  }

  lemma {:induction false} WordLengthExact(s: string, n: nat)
    requires n <= |s|
    requires forall k :: 0 <= k < n ==> !IsSpace(s[k])
    requires n < |s| ==> IsSpace(s[n])
    ensures WordLength(s) == n
  {
    if n > 0 {
      WordLengthExact(s[1..], n - 1);
    }
  }

  // ---------------------------------------------------------------------
  // The extractors
  // ---------------------------------------------------------------------

  /** The scan `for (i = 0; i < comments.size(); ++i) if (find(key)) {...; break;}`. */
  method FirstLineContaining(comments: seq<string>, key: string) returns (r: Option<nat>)
    ensures r == FirstContaining(comments, key)
  {
    var i := 0;
    while i < |comments|
      invariant i <= |comments|
      invariant forall j :: 0 <= j < i ==> !Contains(comments[j], key)
    {
      if Contains(comments[i], key) {
        return Some(i);
      }
      i := i + 1;
    }
    return None;
  }

  /** The common body of the three numeric readers: find the first line
      with `key`, skip `field` tokens, then read one value into a result that
      starts as None. */
  method ReadField(comments: seq<string>, key: string, field: nat) returns (value: Option<string>)
    ensures value == FieldOfFirst(comments, key, field)
  {
    value := None;
    var found := FirstLineContaining(comments, key);
    if found.Some? {
      var istr := new InputStringStream(comments[found.value]);
      istr.Skip(field);
      value := istr.ExtractNumber(value);
    }
  }

  /** GetRadius: the field after "# Radius of confusion"; None stands for the
      DBL_MAX the result starts with. */
  method GetRadius(comments: seq<string>) returns (radius: Option<string>)
    ensures radius == RadiusField(comments)
  {
    radius := ReadField(comments, RADIUS_KEY, RADIUS_FIELD);
  }

  /** GetMinValue: None stands for the result left unassigned. */
  method GetMinValue(comments: seq<string>) returns (minbest: Option<string>)
    ensures minbest == MinValueField(comments)
  {
    minbest := ReadField(comments, MIN_KEY, MIN_FIELD);
  }

  /** GetMaxValue, as written: it skips five tokens, like GetMinValue. */
  method GetMaxValue(comments: seq<string>) returns (maxbest: Option<string>)
    ensures maxbest == MaxValueField(comments)
  {
    maxbest := ReadField(comments, MAX_KEY, MAX_FIELD);
  }

  /** GetMaxValue as its name and the documented line call for: it skips six
      tokens, so that it reads the value after the minimum. */
  method GetMaxValueCorrected(comments: seq<string>) returns (maxbest: Option<string>)
    ensures maxbest == IntendedMaxValueField(comments)
  {
    maxbest := ReadField(comments, MAX_KEY, INTENDED_MAX_FIELD);
  }

  /** GetType: "<variety> <centering>" from the first "Delone" line. */
  method GetType(comments: seq<string>) returns (r: string)
    ensures r == TypeText(comments)
  {
    var variety := "";
    var centering := "";
    var found := FirstLineContaining(comments, DELONE_KEY);
    if found.Some? {
      var istr := new InputStringStream(comments[found.value]);
      istr.Skip(VARIETY_FIELD);
      variety := istr.Extract(variety);
      centering := istr.Extract(centering);
    }
    r := variety + " " + centering;
  }

  // ---------------------------------------------------------------------
  // Properties of the extractors
  // ---------------------------------------------------------------------

  /** Only the first line containing the key is consulted: any other list of
      comments that agrees with this one up to and including that line gives
      the same search result. */
  lemma {:induction false} FirstMatchDecides(comments: seq<string>, other: seq<string>, key: string, i: nat)
    requires FirstContaining(comments, key) == Some(i)
    requires i < |other| && other[..i + 1] == comments[..i + 1]
    ensures FirstContaining(other, key) == Some(i)
  {
    assert other[i] == other[..i + 1][i] == comments[..i + 1][i] == comments[i];
    forall j | 0 <= j < i ensures !Contains(other[j], key) {
      assert other[j] == other[..i + 1][j] == comments[..i + 1][j] == comments[j];
    }
  }

  /** Later matching lines are ignored by all four extractors. */
  lemma LaterLinesIgnored(comments: seq<string>, other: seq<string>, key: string, field: nat, i: nat)
    requires FirstContaining(comments, key) == Some(i)
    requires i < |other| && other[..i + 1] == comments[..i + 1]
    ensures FieldOfFirst(other, key, field) == FieldOfFirst(comments, key, field)
    ensures key == DELONE_KEY ==> TypeText(other) == TypeText(comments)
  {
    FirstMatchDecides(comments, other, key, i);
    assert other[i] == other[..i + 1][i] == comments[..i + 1][i] == comments[i];
  }

  /** Appending comment lines after a matching one changes nothing. */
  lemma AppendedLinesIgnored(comments: seq<string>, later: seq<string>, key: string, field: nat)
    requires FirstContaining(comments, key).Some?
    ensures FieldOfFirst(comments + later, key, field) == FieldOfFirst(comments, key, field)
    ensures key == DELONE_KEY ==> TypeText(comments + later) == TypeText(comments)
  {
    var i := FirstContaining(comments, key).value;
    assert (comments + later)[..i + 1] == comments[..i + 1];
    LaterLinesIgnored(comments, comments + later, key, field, i);
  }

  /** Without a matching line the numeric readers give None (DBL_MAX for the
      radius, an unassigned value for min and max) and GetType a lone blank. */
  lemma NoMatchingLine(comments: seq<string>, key: string, field: nat)
    requires forall j :: 0 <= j < |comments| ==> !Contains(comments[j], key)
    ensures FieldOfFirst(comments, key, field) == None
    ensures key == DELONE_KEY ==> TypeText(comments) == " "
  {
  }

  /** A matching line with too few tokens is not an error: each missing token
      of GetType reads as empty, and a missing numeric field as None. */
  lemma ShortMatchingLine(comments: seq<string>, key: string, field: nat, i: nat)
    requires FirstContaining(comments, key) == Some(i)
    requires |Tokens(comments[i])| <= field
    ensures FieldOfFirst(comments, key, field) == None
    ensures key == DELONE_KEY && |Tokens(comments[i])| <= VARIETY_FIELD ==> TypeText(comments) == " "
    ensures key == DELONE_KEY && |Tokens(comments[i])| == CENTERING_FIELD ==>
      TypeText(comments) == Tokens(comments[i])[VARIETY_FIELD] + " "
  {
  }

  /** GetMinValue and GetMaxValue differ only in their key: whenever both
      keys first occur on the same line they deliver the same token. */
  lemma MinAndMaxShareTheirField(comments: seq<string>)
    requires FirstContaining(comments, MIN_KEY) == FirstContaining(comments, MAX_KEY)
    ensures MinValueField(comments) == MaxValueField(comments)
  {
  }

  /** The key may sit anywhere in the line, inside a longer word too. */
  lemma {:induction false} KeyFoundAnywhere(line: string, before: string, key: string, after: string)
    requires line == before + key + after
    ensures Contains(line, key)
  {
    assert line[|before|..|before| + |key|] == key;
    assert OccursAt(line, key, |before|);
  }

  /** Matching is case-sensitive: a line without the key's first character,
      in that case, does not contain the key. */
  lemma {:induction false} KeyNeedsItsFirstCharacter(line: string, key: string)
    requires key != [] && key[0] !in line
    ensures !Contains(line, key)
  {
    forall i | 0 <= i <= |line| - |key| ensures !OccursAt(line, key, i) {
      assert line[i] in line;
    }
  }

  /** A lower-case "radius" line is not the radius line. */
  lemma LowerCaseRadiusIgnored(value: string)
    requires 'R' !in value
    ensures !Contains("# radius of confusion " + value, RADIUS_KEY)
  {
    var line := "# radius of confusion " + value;
    assert 'R' !in line by {
      forall k | 0 <= k < |line| ensures line[k] != 'R' {
        if k >= 22 { assert line[k] == value[k - 22]; }
      }
    }
    KeyNeedsItsFirstCharacter(line, RADIUS_KEY);
  }

  // --- tokens of concatenated text ---

  lemma {:induction false} TokensSkipSpace(sp: string, rest: string)
    requires AllSpace(sp)
    ensures Tokens(sp + rest) == Tokens(rest)
  {
    if sp != [] {
      assert (sp + rest)[0] == sp[0];
      assert (sp + rest)[1..] == sp[1..] + rest;
      TokensSkipSpace(sp[1..], rest);
    } else {
      assert sp + rest == rest;
    }
  }

  lemma TokensWordThen(w: string, rest: string)
    requires IsWord(w)
    requires rest == [] || IsSpace(rest[0])
    ensures Tokens(w + rest) == [w] + Tokens(rest)
  {
    var line := w + rest;
    forall k | 0 <= k < |w| ensures !IsSpace(line[k]) {
      assert line[k] == w[k];
    }
    assert |w| < |line| ==> line[|w|] == rest[0];
    WordAtStart(line, |w|);
    assert line[..|w|] == w && line[|w|..] == rest;
  }

  /** Words each followed by one blank. */
  function Spaced(ws: seq<string>): string
  {
    if ws == [] then "" else ws[0] + " " + Spaced(ws[1..])
  }

  lemma {:induction false} TokensSpaced(ws: seq<string>, rest: string)
    requires forall k :: 0 <= k < |ws| ==> IsWord(ws[k])
    ensures Tokens(Spaced(ws) + rest) == ws + Tokens(rest)
  {
    if ws == [] {
      assert Spaced(ws) + rest == rest;
    } else {
      var w := ws[0];
      var tail := Spaced(ws[1..]) + rest;
      assert IsWord(w) && AllSpace(" ");
      calc {
        Tokens(Spaced(ws) + rest);
        { assert Spaced(ws) + rest == w + (" " + tail); }
        Tokens(w + (" " + tail));
        { TokensWordThen(w, " " + tail); }
        [w] + Tokens(" " + tail);
        { TokensSkipSpace(" ", tail); }
        [w] + Tokens(tail);
        { TokensSpaced(ws[1..], rest); }
        [w] + (ws[1..] + Tokens(rest));
        { assert ws == [w] + ws[1..]; }
        ws + Tokens(rest);
      }
    }
  }

  /** Two values written as `<< a << "  " << b`. */
  lemma TokensTwoValues(a: string, b: string)
    requires IsWord(a) && IsWord(b)
    ensures Tokens(a + "  " + b) == [a, b]
  {
    assert a + "  " + b == a + ("  " + b);
    TokensWordThen(a, "  " + b);
    assert AllSpace("  ");
    TokensSkipSpace("  ", b);
    TokensWordThen(b, "");
    assert b + "" == b;
  }

  lemma {:induction false} SpacedAppend(a: seq<string>, b: seq<string>)
    ensures Spaced(a + b) == Spaced(a) + Spaced(b)
  {
    if a == [] {
      assert a + b == b;
    } else {
      assert (a + b)[0] == a[0] && (a + b)[1..] == a[1..] + b;
      SpacedAppend(a[1..], b);
    }
  }

  /** Every fixed word of a spaced header occurs in the line. */
  lemma HeaderWordFound(ws: seq<string>, k: nat, rest: string)
    requires k < |ws|
    ensures Contains(Spaced(ws) + rest, ws[k])
  {
    SpacedSplit(ws, k, rest);
    KeyFoundAnywhere(Spaced(ws) + rest, Spaced(ws[..k]), ws[k], " " + Spaced(ws[k + 1..]) + rest);
  }

  lemma SpacedSplit(ws: seq<string>, k: nat, rest: string)
    requires k < |ws|
    ensures Spaced(ws) + rest == Spaced(ws[..k]) + ws[k] + (" " + Spaced(ws[k + 1..]) + rest)
  {
    SpacedAt(ws, k);
    Regroup(Spaced(ws[..k]), ws[k], " ", Spaced(ws[k + 1..]), rest);
  }

  lemma SpacedAt(ws: seq<string>, k: nat)
    requires k < |ws|
    ensures Spaced(ws) == Spaced(ws[..k]) + (ws[k] + " " + Spaced(ws[k + 1..]))
  {
    assert ws == ws[..k] + ws[k..];
    SpacedAppend(ws[..k], ws[k..]);
    assert ws[k..][0] == ws[k] && ws[k..][1..] == ws[k + 1..];
  }

  // Regroup, and the split lemmas below for the header texts, keep each
  // associativity or literal equality in a proof of its own: stated together
  // they exceed the solver's resource budget.
  lemma Regroup(a: string, b: string, c: string, d: string, e: string)
    ensures a + (b + c + d) + e == a + b + (c + d + e)
  {
  }

  // --- the documented header lines ---

  /** The fixed words in front of the values on each documented line. */
  const DELONE_HEAD: seq<string> := ["#", "Title", "Delone", "variety", "and", "input", "centering"]
  const RADIUS_HEAD: seq<string> := ["#", "Radius", "of", "confusion"]
  const SELLA_HEAD: seq<string> := ["#", "min/max", "best", "Sella", "values"]

  lemma HeadsAreWords()
    ensures forall k :: 0 <= k < |DELONE_HEAD| ==> IsWord(DELONE_HEAD[k])
    ensures forall k :: 0 <= k < |RADIUS_HEAD| ==> IsWord(RADIUS_HEAD[k])
    ensures forall k :: 0 <= k < |SELLA_HEAD| ==> IsWord(SELLA_HEAD[k])
  {
  }

  /** "# Title Delone variety and input centering <variety>  <centering>" */
  function DeloneLine(variety: string, centering: string): string
  {
    Spaced(DELONE_HEAD) + (variety + "  " + centering)
  }

  /** "# Radius of confusion <radius>" */
  function RadiusLine(radius: string): string
  {
    Spaced(RADIUS_HEAD) + radius
  }

  /** "# min/max best Sella values <minbest>  <maxbest>" */
  function SellaLine(minbest: string, maxbest: string): string
  {
    Spaced(SELLA_HEAD) + (minbest + "  " + maxbest)
  }

  /** The header is the text written in front of the two values. */
  lemma DeloneHeadText()
    ensures Spaced(DELONE_HEAD) == "# Title Delone variety and input centering "
  {
    DeloneHeadHalves();
    TitleText();
    CenteringText();
    DeloneHeadLiteral();
  }

  lemma DeloneHeadHalves()
    ensures Spaced(DELONE_HEAD)
         == Spaced(["#", "Title", "Delone"]) + Spaced(["variety", "and", "input", "centering"])
  {
    assert DELONE_HEAD == ["#", "Title", "Delone"] + ["variety", "and", "input", "centering"];
    SpacedAppend(["#", "Title", "Delone"], ["variety", "and", "input", "centering"]);
  }

  lemma DeloneHeadLiteral()
    ensures "# Title Delone variety and input centering "
         == "# Title Delone " + "variety and input centering "
  {
  }

  lemma TitleText()
    ensures Spaced(["#", "Title", "Delone"]) == "# Title Delone "
  {
  }

  lemma CenteringText()
    ensures Spaced(["variety", "and", "input", "centering"]) == "variety and input centering "
  {
  }

  lemma RadiusHeadText()
    ensures Spaced(RADIUS_HEAD) == "# Radius of confusion "
  {
  }

  lemma SellaHeadText()
    ensures Spaced(SELLA_HEAD) == "# min/max best Sella values "
  {
  }

  lemma DeloneLineTokens(variety: string, centering: string)
    requires IsWord(variety) && IsWord(centering)
    ensures Tokens(DeloneLine(variety, centering)) == DELONE_HEAD + [variety, centering]
  {
    HeadsAreWords();
    TokensSpaced(DELONE_HEAD, variety + "  " + centering);
    TokensTwoValues(variety, centering);
  }

  lemma RadiusLineTokens(radius: string)
    requires IsWord(radius)
    ensures Tokens(RadiusLine(radius)) == RADIUS_HEAD + [radius]
  {
    HeadsAreWords();
    TokensSpaced(RADIUS_HEAD, radius);
    TokensWordThen(radius, "");
    assert radius + "" == radius;
  }

  lemma SellaLineTokens(minbest: string, maxbest: string)
    requires IsWord(minbest) && IsWord(maxbest)
    ensures Tokens(SellaLine(minbest, maxbest)) == SELLA_HEAD + [minbest, maxbest]
  {
    HeadsAreWords();
    TokensSpaced(SELLA_HEAD, minbest + "  " + maxbest);
    TokensTwoValues(minbest, maxbest);
  }

  /** On the documented "Delone" line GetType yields "<variety> <centering>". */
  lemma TypeOfDeloneLine(comments: seq<string>, i: nat, variety: string, centering: string)
    requires i < |comments| && comments[i] == DeloneLine(variety, centering)
    requires IsWord(variety) && IsWord(centering)
    requires forall j :: 0 <= j < i ==> !Contains(comments[j], DELONE_KEY)
    ensures TypeText(comments) == variety + " " + centering
  {
    HeaderWordFound(DELONE_HEAD, 2, variety + "  " + centering);
    DeloneLineTokens(variety, centering);
  }

  /** On the documented radius line GetRadius reads the radius. */
  lemma RadiusOfRadiusLine(comments: seq<string>, i: nat, radius: string)
    requires i < |comments| && comments[i] == RadiusLine(radius)
    requires IsWord(radius)
    requires forall j :: 0 <= j < i ==> !Contains(comments[j], RADIUS_KEY)
    ensures RadiusField(comments) == Some(radius)
  {
    HeaderWordFound(RADIUS_HEAD, 1, radius);
    RadiusLineTokens(radius);
  }

  /** On the documented min/max line GetMinValue and GetMaxValue both read the
      token after "values", which is the minimum. */
  lemma MinAndMaxOfSellaLine(comments: seq<string>, i: nat, minbest: string, maxbest: string)
    requires i < |comments| && comments[i] == SellaLine(minbest, maxbest)
    requires IsWord(minbest) && IsWord(maxbest)
    requires forall j :: 0 <= j < i ==> !Contains(comments[j], MIN_KEY) && !Contains(comments[j], MAX_KEY)
    ensures MinValueField(comments) == Some(minbest)
    ensures MaxValueField(comments) == Some(minbest)
  {
    SellaLineHasKeys(minbest, maxbest);
    SellaLineTokens(minbest, maxbest);
  }

  /** The same on a concrete line: the maximum 2.5 is never read. */
  lemma MaxReadsMinimumExample()
    ensures MaxValueField([SellaLine("1.5", "2.5")]) == Some("1.5")
    ensures IntendedMaxValueField([SellaLine("1.5", "2.5")]) == Some("2.5")
  {
    assert IsWord("1.5") && IsWord("2.5");
    MinAndMaxOfSellaLine([SellaLine("1.5", "2.5")], 0, "1.5", "2.5");
    IntendedMaxOfSellaLine([SellaLine("1.5", "2.5")], 0, "1.5", "2.5");
  }

  /** The corrected reader gives the maximum on the same line. */
  lemma IntendedMaxOfSellaLine(comments: seq<string>, i: nat, minbest: string, maxbest: string)
    requires i < |comments| && comments[i] == SellaLine(minbest, maxbest)
    requires IsWord(minbest) && IsWord(maxbest)
    requires forall j :: 0 <= j < i ==> !Contains(comments[j], MAX_KEY)
    ensures IntendedMaxValueField(comments) == Some(maxbest)
  {
    SellaLineHasKeys(minbest, maxbest);
    SellaLineTokens(minbest, maxbest);
  }

  /** "min/max" holds both keys. */
  lemma SellaLineHasKeys(minbest: string, maxbest: string)
    ensures Contains(SellaLine(minbest, maxbest), MIN_KEY)
    ensures Contains(SellaLine(minbest, maxbest), MAX_KEY)
  {
    var values := minbest + "  " + maxbest;
    var before := Spaced(SELLA_HEAD[..1]);
    var after := " " + Spaced(SELLA_HEAD[2..]) + values;
    SpacedSplit(SELLA_HEAD, 1, values);
    assert SELLA_HEAD[1] == "min/max";
    KeyInsideWord(SellaLine(minbest, maxbest), before, "min/max", after, "", MIN_KEY, "/max");
    KeyInsideWord(SellaLine(minbest, maxbest), before, "min/max", after, "min/", MAX_KEY, "");
  }

  /** A key inside a longer word of the line is found as well. */
  lemma KeyInsideWord(line: string, before: string, word: string, after: string,
                      pre: string, key: string, post: string)
    requires line == before + word + after && word == pre + key + post
    ensures Contains(line, key)
  {
    assert line == (before + pre) + key + (post + after);
    KeyFoundAnywhere(line, before + pre, key, post + after);
  }
}
