/**
  The two patterns of the ORDER BY grammar, as functions on strings: a full match and what it
  captures. Both ignore case and use the Unicode classes for spaces and digits.
 */
module OrderByGrammar {
  import opened Wrappers
  import opened OrderBy

  // What a match captures.
  datatype Order =
    | Plain(column: string, descending: bool)
    | Coalesce(column: string, fallback: string, descending: bool)

  // ---------- Character classes ----------

  // [A-Za-z_] without case: it takes in four letters outside ASCII that fold to I, K and S.
  predicate IsWordStart(c: char)
  {
    'A' <= c <= 'Z' || 'a' <= c <= 'z' || c == '_' || c in {'\U{130}', '\U{131}', '\U{17f}', '\U{212a}'}
  }

  predicate IsWordPart(c: char)
  {
    IsWordStart(c) || '0' <= c <= '9'
  }

  // \d: the decimal digits of Unicode 15.1.
  predicate IsDigit(c: char)
  {
    || '0' <= c <= '9' || '\U{660}' <= c <= '\U{669}' || '\U{6f0}' <= c <= '\U{6f9}'
    || '\U{7c0}' <= c <= '\U{7c9}' || '\U{966}' <= c <= '\U{96f}' || '\U{9e6}' <= c <= '\U{9ef}'
    || '\U{a66}' <= c <= '\U{a6f}' || '\U{ae6}' <= c <= '\U{aef}' || '\U{b66}' <= c <= '\U{b6f}'
    || '\U{be6}' <= c <= '\U{bef}' || '\U{c66}' <= c <= '\U{c6f}' || '\U{ce6}' <= c <= '\U{cef}'
    || '\U{d66}' <= c <= '\U{d6f}' || '\U{de6}' <= c <= '\U{def}' || '\U{e50}' <= c <= '\U{e59}'
    || '\U{ed0}' <= c <= '\U{ed9}' || '\U{f20}' <= c <= '\U{f29}' || '\U{1040}' <= c <= '\U{1049}'
    || '\U{1090}' <= c <= '\U{1099}' || '\U{17e0}' <= c <= '\U{17e9}' || '\U{1810}' <= c <= '\U{1819}'
    || '\U{1946}' <= c <= '\U{194f}' || '\U{19d0}' <= c <= '\U{19d9}' || '\U{1a80}' <= c <= '\U{1a89}'
    || '\U{1a90}' <= c <= '\U{1a99}' || '\U{1b50}' <= c <= '\U{1b59}' || '\U{1bb0}' <= c <= '\U{1bb9}'
    || '\U{1c40}' <= c <= '\U{1c49}' || '\U{1c50}' <= c <= '\U{1c59}' || '\U{a620}' <= c <= '\U{a629}'
    || '\U{a8d0}' <= c <= '\U{a8d9}' || '\U{a900}' <= c <= '\U{a909}' || '\U{a9d0}' <= c <= '\U{a9d9}'
    || '\U{a9f0}' <= c <= '\U{a9f9}' || '\U{aa50}' <= c <= '\U{aa59}' || '\U{abf0}' <= c <= '\U{abf9}'
    || '\U{ff10}' <= c <= '\U{ff19}' || '\U{104a0}' <= c <= '\U{104a9}' || '\U{10d30}' <= c <= '\U{10d39}'
    || '\U{11066}' <= c <= '\U{1106f}' || '\U{110f0}' <= c <= '\U{110f9}' || '\U{11136}' <= c <= '\U{1113f}'
    || '\U{111d0}' <= c <= '\U{111d9}' || '\U{112f0}' <= c <= '\U{112f9}' || '\U{11450}' <= c <= '\U{11459}'
    || '\U{114d0}' <= c <= '\U{114d9}' || '\U{11650}' <= c <= '\U{11659}' || '\U{116c0}' <= c <= '\U{116c9}'
    || '\U{11730}' <= c <= '\U{11739}' || '\U{118e0}' <= c <= '\U{118e9}' || '\U{11950}' <= c <= '\U{11959}'
    || '\U{11c50}' <= c <= '\U{11c59}' || '\U{11d50}' <= c <= '\U{11d59}' || '\U{11da0}' <= c <= '\U{11da9}'
    || '\U{11f50}' <= c <= '\U{11f59}' || '\U{16a60}' <= c <= '\U{16a69}' || '\U{16ac0}' <= c <= '\U{16ac9}'
    || '\U{16b50}' <= c <= '\U{16b59}' || '\U{1d7ce}' <= c <= '\U{1d7ff}' || '\U{1e140}' <= c <= '\U{1e149}'
    || '\U{1e2f0}' <= c <= '\U{1e2f9}' || '\U{1e4f0}' <= c <= '\U{1e4f9}' || '\U{1e950}' <= c <= '\U{1e959}'
    || '\U{1fbf0}' <= c <= '\U{1fbf9}'
  }

  // A letter of a keyword in either case; the long s folds to S.
  predicate SameLetter(c: char, upper: char)
    requires 'A' <= upper <= 'Z'
  {
    c == upper || c as int == upper as int + 32 || (upper == 'S' && c == '\U{17f}')
  }

  predicate SameWord(s: string, keyword: string)
    requires forall i :: 0 <= i < |keyword| ==> 'A' <= keyword[i] <= 'Z'
  {
    |s| == |keyword| && forall i :: 0 <= i < |s| ==> SameLetter(s[i], keyword[i])
  }

  // ---------- The patterns ----------

  // How many characters at the front belong to a class.
  function Leading(s: string, class': char -> bool): (n: nat)
    ensures n <= |s| && (forall i :: 0 <= i < n ==> class'(s[i])) && (n < |s| ==> !class'(s[n]))
  {
    if s == [] || !class'(s[0]) then 0 else 1 + Leading(s[1..], class')
  }

  function SkipSpaces(s: string): string
  {
    s[Leading(s, IsSpace)..]
  }

  function Direction(descending: bool): string
  {
    if descending then "DESC" else "ASC"
  }

  // ASC or DESC, after at least one space.
  function ParseDirection(s: string): Option<bool>
  {
    var k := Leading(s, IsSpace);
    if k == 0 then None
    else if SameWord(s[k..], "ASC") then Some(false)
    else if SameWord(s[k..], "DESC") then Some(true)
    else None
  }

  // A name at the front: its length, or 0.
  function NameLength(s: string): (n: nat)
    ensures n <= |s| && forall i :: 0 <= i < n ==> IsWordPart(s[i])
  {
    if s == [] || !IsWordStart(s[0]) then 0 else Leading(s, IsWordPart)
  }

  // -?\d+ at the front: its length, or 0.
  function NumeralLength(s: string): (n: nat)
    ensures n <= |s| && (n > 0 ==> IsNumeral(s[..n]))
  {
    var sign := if s != [] && s[0] == '-' then 1 else 0;
    var digits := Leading(s[sign..], IsDigit);
    if digits == 0 then 0
    else
      assert s[..sign + digits][sign..] == s[sign..][..digits];
      sign + digits
  }

  // What follows a sign.
  function Digits(s: string): string
  {
    if s != [] && s[0] == '-' then s[1..] else s
  }

  predicate IsNumeral(s: string)
  {
    Digits(s) != [] && forall i :: 0 <= i < |Digits(s)| ==> IsDigit(Digits(s)[i])
  }

  // column, then possibly a direction
  function ParsePlain(s: string): Option<Order>
  {
    var n := NameLength(s);
    if n == 0 then None
    else if n == |s| then Some(Plain(s, false))
    else Directed(Plain(s[..n], false), s[n..])
  }

  // An order with the direction that is read.
  function Directed(o: Order, s: string): Option<Order>
  {
    match ParseDirection(s)
    case None => None
    case Some(descending) => Some(o.(descending := descending))
  }

  // closing parenthesis and direction
  function ParseEnd(column: string, fallback: string, s: string): Option<Order>
  {
    var w := SkipSpaces(s);
    if w == [] || w[0] != ')' then None else Directed(Coalesce(column, fallback, false), w[1..])
  }

  // numeral, and what follows it
  function ParseFallback(column: string, s: string): Option<Order>
  {
    var v := SkipSpaces(s);
    var d := NumeralLength(v);
    if d == 0 then None else ParseEnd(column, v[..d], v[d..])
  }

  // comma, and what follows it
  function ParseComma(column: string, s: string): Option<Order>
  {
    var u := SkipSpaces(s);
    if u == [] || u[0] != ',' then None else ParseFallback(column, u[1..])
  }

  // What follows the opening parenthesis.
  function ParseArguments(s: string): Option<Order>
  {
    var t := SkipSpaces(s);
    var n := NameLength(t);
    if n == 0 then None else ParseComma(t[..n], t[n..])
  }

  function ParseCoalesce(s: string): Option<Order>
  {
    if |s| < 9 || !SameWord(s[..8], "COALESCE") || s[8] != '(' then None else ParseArguments(s[9..])
  }

  // The first pattern that matches.
  function Parse(s: string): Option<Order>
  {
    var plain := ParsePlain(s);
    if plain.Some? then plain else ParseCoalesce(s)
  }

  // ---------- Orders and their text ----------

  predicate IsLetter(c: char)
  {
    'A' <= c <= 'Z' || 'a' <= c <= 'z' || c == '_'
  }

  // [A-Za-z_][A-Za-z0-9_]*
  predicate IsIdentifier(s: string)
  {
    s != [] && IsLetter(s[0]) && forall i :: 0 <= i < |s| ==> IsLetter(s[i]) || '0' <= s[i] <= '9'
  }

  predicate WellFormed(o: Order)
  {
    IsIdentifier(o.column) && (o.Coalesce? ==> IsNumeral(o.fallback))
  }

  // An order without quotes.
  function Text(o: Order): string
  {
    match o
    case Plain(column, descending) => column + " " + Direction(descending)
    case Coalesce(column, fallback, descending) => "COALESCE(" + column + ", " + fallback + ") " + Direction(descending)
  }

  // ---------- What the patterns match ----------

  predicate Spaces(s: string)
  {
    forall i :: 0 <= i < |s| ==> IsSpace(s[i])
  }

  predicate IsName(s: string)
  {
    s != [] && IsWordStart(s[0]) && forall i :: 0 <= i < |s| ==> IsWordPart(s[i])
  }

  // The parts of a matched string that are not captured.
  datatype Spelling = Spelling(
    coalesce: string, beforeName: string, beforeComma: string, beforeNumeral: string,
    beforeEnd: string, beforeDirection: string, direction: string)

  predicate Spells(p: Spelling, o: Order)
  {
    && Spaces(p.beforeDirection) && p.beforeDirection != [] && SameWord(p.direction, Direction(o.descending))
    && SameWord(p.coalesce, "COALESCE")
    && Spaces(p.beforeName) && Spaces(p.beforeComma) && Spaces(p.beforeNumeral) && Spaces(p.beforeEnd)
  }

  // column, or column and direction
  ghost predicate MatchesPlain(s: string, o: Order)
  {
    && o.Plain? && IsName(o.column)
    && ((s == o.column && !o.descending)
        || exists p :: Spells(p, o) && s == o.column + (p.beforeDirection + p.direction))
  }

  // COALESCE ( column , numeral ) direction
  ghost predicate MatchesCoalesce(s: string, o: Order)
  {
    && o.Coalesce? && IsName(o.column) && IsNumeral(o.fallback)
    && exists p :: Spells(p, o) && s == p.coalesce + ("(" + Arguments(p, o))
  }

  function Arguments(p: Spelling, o: Order): string
    requires o.Coalesce?
  {
    p.beforeName + (o.column + (p.beforeComma + ("," + Fallback(p, o))))
  }

  function Fallback(p: Spelling, o: Order): string
    requires o.Coalesce?
  {
    p.beforeNumeral + (o.fallback + End(p))
  }

  function End(p: Spelling): string
  {
    p.beforeEnd + (")" + (p.beforeDirection + p.direction))
  }

  // ---------- Reading ----------

  lemma {:induction false} LeadingIs(s: string, class': char -> bool, n: nat)
    requires n <= |s| && (forall i :: 0 <= i < n ==> class'(s[i])) && (n < |s| ==> !class'(s[n]))
    ensures Leading(s, class') == n
  {
    if n > 0 { LeadingIs(s[1..], class', n - 1); }
  }

  // Digits are neither spaces nor punctuation.
  lemma DigitClass(c: char)
    requires IsDigit(c)
    ensures c >= '0' && !IsSpace(c)
  {
  }

  lemma SpaceClass(c: char)
    requires IsSpace(c)
    ensures !IsWordPart(c) && c !in {',', ')', '(', '-'} && !IsDigit(c)
  {
    if IsDigit(c) { DigitClass(c); }
  }

  lemma LetterClass(c: char)
    requires IsWordPart(c)
    ensures !IsSpace(c)
  {
  }

  lemma PunctuationClass()
    ensures !IsWordPart(',') && !IsWordPart('(') && !IsDigit(')') && !IsSpace(',') && !IsSpace(')') && !IsSpace('-') && !IsSpace('(')
  {
  }

  lemma DirectionIsRead(p: Spelling, o: Order)
    requires Spells(p, o)
    ensures ParseDirection(p.beforeDirection + p.direction) == Some(o.descending)
  {
    hide IsSpace;
    var s, k := p.beforeDirection + p.direction, |p.beforeDirection|;
    LetterOfKeyword(p.direction[0], Direction(o.descending)[0]);
    LeadingIs(s, IsSpace, k);
    assert s[k..] == p.direction;
  }

  lemma LetterOfKeyword(c: char, upper: char)
    requires 'A' <= upper <= 'Z' && SameLetter(c, upper)
    ensures !IsSpace(c) && IsWordStart(c)
  {
  }

  lemma NameIsRead(name: string, rest: string)
    requires IsName(name) && (rest != [] ==> !IsWordPart(rest[0]))
    ensures NameLength(name + rest) == |name| && !IsSpace(name[0])
  {
    LetterClass(name[0]);
    LeadingIs(name + rest, IsWordPart, |name|);
  }

  lemma NumeralIsRead(numeral: string, rest: string)
    requires IsNumeral(numeral) && (rest != [] ==> !IsDigit(rest[0]))
    ensures NumeralLength(numeral + rest) == |numeral| && !IsSpace(numeral[0])
  {
    hide IsDigit, IsSpace;
    PunctuationClass();
    var s, sign := numeral + rest, if numeral[0] == '-' then 1 else 0;
    assert s[sign..] == Digits(numeral) + rest;
    LeadingIs(s[sign..], IsDigit, |numeral| - sign);
    if sign == 0 { DigitClass(numeral[0]); }
  }

  lemma SpacesAreSkipped(gap: string, s: string)
    requires Spaces(gap) && s != [] && !IsSpace(s[0])
    ensures SkipSpaces(gap + s) == s
  {
    LeadingIs(gap + s, IsSpace, |gap|);
  }

  lemma EndIsRead(p: Spelling, o: Order)
    requires o.Coalesce? && Spells(p, o)
    ensures ParseEnd(o.column, o.fallback, End(p)) == Some(o)
  {
    hide ParseDirection, SkipSpaces, IsSpace, SameWord;
    PunctuationClass();
    var w := ")" + (p.beforeDirection + p.direction);
    SpacesAreSkipped(p.beforeEnd, w);
    assert w[1..] == p.beforeDirection + p.direction;
    DirectionIsRead(p, o);
  }

  lemma FallbackIsRead(p: Spelling, o: Order)
    requires o.Coalesce? && Spells(p, o) && IsNumeral(o.fallback)
    ensures ParseFallback(o.column, Fallback(p, o)) == Some(o)
  {
    hide ParseEnd, SkipSpaces, NumeralLength, IsSpace, IsDigit, SameWord;
    PunctuationClass();
    if p.beforeEnd != [] { SpaceClass(p.beforeEnd[0]); }
    var w := End(p);
    var v := o.fallback + w;
    NumeralIsRead(o.fallback, w);
    SpacesAreSkipped(p.beforeNumeral, v);
    assert v[|o.fallback|..] == w && v[..|o.fallback|] == o.fallback;
    EndIsRead(p, o);
  }

  lemma ArgumentsAreRead(p: Spelling, o: Order)
    requires o.Coalesce? && Spells(p, o) && IsName(o.column) && IsNumeral(o.fallback)
    ensures ParseArguments(Arguments(p, o)) == Some(o)
  {
    hide IsWordStart, IsNumeral, IsSpace, IsWordPart, ParseFallback, NameLength, SkipSpaces, SameWord, Fallback;
    PunctuationClass();
    if p.beforeComma != [] { SpaceClass(p.beforeComma[0]); }
    var v := "," + Fallback(p, o);
    var u := p.beforeComma + v;
    var t := o.column + u;
    NameIsRead(o.column, u);
    SpacesAreSkipped(p.beforeName, t);
    assert t[|o.column|..] == u && t[..|o.column|] == o.column;
    SpacesAreSkipped(p.beforeComma, v);
    assert v[1..] == Fallback(p, o);
    FallbackIsRead(p, o);
  }

  // A word and then a parenthesis is not the first pattern.
  lemma NotPlain(word: string, rest: string)
    requires SameWord(word, "COALESCE")
    ensures ParsePlain(word + ("(" + rest)).None?
  {
    var s := word + ("(" + rest);
    forall i | 0 <= i < 8 ensures IsWordPart(s[i]) && IsWordStart(s[0]) {
      LetterOfKeyword(word[i], "COALESCE"[i]);
      LetterOfKeyword(word[0], 'C');
    }
    LeadingIs(s, IsWordPart, 8);
    LeadingIs(s[8..], IsSpace, 0);
  }

  lemma CoalesceIsRead(s: string, o: Order)
    requires MatchesCoalesce(s, o)
    ensures Parse(s) == Some(o)
  {
    hide ParseArguments, ParsePlain, IsNumeral, IsName, IsSpace, SameLetter, Arguments;
    var p :| Spells(p, o) && s == p.coalesce + ("(" + Arguments(p, o));
    assert s[..8] == p.coalesce && s[8] == '(' && s[9..] == Arguments(p, o);
    NotPlain(p.coalesce, Arguments(p, o));
    ArgumentsAreRead(p, o);
  }

  lemma PlainIsRead(s: string, o: Order)
    requires MatchesPlain(s, o)
    ensures Parse(s) == Some(o)
  {
    hide NameLength, ParseDirection, ParseCoalesce, IsWordStart, IsWordPart, IsSpace, SameWord;
    if s == o.column && !o.descending {
      assert s + [] == s;
      NameIsRead(s, []);
    } else {
      var p :| Spells(p, o) && s == o.column + (p.beforeDirection + p.direction);
      var rest := p.beforeDirection + p.direction;
      SpaceClass(rest[0]);
      NameIsRead(o.column, rest);
      assert s[|o.column|..] == rest && s[..|o.column|] == o.column;
      DirectionIsRead(p, o);
    }
  }

  // ---------- Nothing else is read ----------

  lemma ReadDirection(s: string) returns (gap: string, word: string)
    requires ParseDirection(s).Some?
    ensures s == gap + word && gap != [] && Spaces(gap) && SameWord(word, Direction(ParseDirection(s).value))
  {
    hide IsSpace, SameWord;
    var k := Leading(s, IsSpace);
    gap, word := s[..k], s[k..];
  }

  lemma ReadSpaces(s: string) returns (gap: string)
    ensures s == gap + SkipSpaces(s) && Spaces(gap)
  {
    gap := s[..Leading(s, IsSpace)];
  }

  lemma ReadEnd(o: Order, s: string) returns (p: Spelling)
    requires o.Coalesce? && ParseEnd(o.column, o.fallback, s) == Some(o)
    ensures Spells(p, o) && s == End(p)
  {
    hide ParseDirection, SkipSpaces, Spaces, SameLetter;
    var d := ReadSpaces(s);
    var w := SkipSpaces(s);
    var gap, word := ReadDirection(w[1..]);
    assert w == ")" + w[1..];
    NoSpaces();
    p := Spelling("COALESCE", [], [], [], d, gap, word);
  }

  lemma NoSpaces()
    ensures Spaces([]) && SameWord("COALESCE", "COALESCE")
  {
  }

  lemma ReadFallback(o: Order, s: string) returns (p: Spelling)
    requires o.Coalesce? && ParseFallback(o.column, s) == Some(o)
    ensures Spells(p, o) && IsNumeral(o.fallback) && s == Fallback(p, o)
  {
    hide ParseDirection, SkipSpaces, Spaces, SameWord, NumeralLength;
    var c := ReadSpaces(s);
    var v := SkipSpaces(s);
    var d := NumeralLength(v);
    p := ReadEnd(o, v[d..]);
    assert v == v[..d] + v[d..];
    p := p.(beforeNumeral := c);
  }

  lemma ReadArguments(o: Order, s: string) returns (p: Spelling)
    requires ParseArguments(s) == Some(o)
    ensures o.Coalesce? && Spells(p, o) && IsName(o.column) && IsNumeral(o.fallback) && s == Arguments(p, o)
  {
    hide ParseDirection, SkipSpaces, Spaces, SameWord, IsNumeral, IsWordPart, IsWordStart, Fallback, NumeralLength;
    var a := ReadSpaces(s);
    var t := SkipSpaces(s);
    var n := NameLength(t);
    var b := ReadSpaces(t[n..]);
    var u := SkipSpaces(t[n..]);
    p := ReadFallback(o, u[1..]);
    assert u == "," + u[1..] && t == t[..n] + t[n..];
    SameFallback(p, o, a, b);
    p := p.(beforeName := a, beforeComma := b);
  }

  lemma SameFallback(p: Spelling, o: Order, a: string, b: string)
    requires o.Coalesce?
    ensures Fallback(p, o) == Fallback(p.(beforeName := a, beforeComma := b), o)
  {
  }

  lemma ReadPlain(s: string, o: Order)
    requires ParsePlain(s) == Some(o)
    ensures MatchesPlain(s, o)
  {
    hide ParseDirection, Spaces, SameWord, IsWordPart, IsWordStart;
    var n := NameLength(s);
    assert s == s[..n] + s[n..];
    if n < |s| {
      var gap, word := ReadDirection(s[n..]);
      NoSpaces();
      var p := Spelling("COALESCE", [], [], [], [], gap, word);
      assert Spells(p, o) && s == o.column + (p.beforeDirection + p.direction);
    }
  }

  // Exactly the strings of the two patterns are read, and as what they spell.
  lemma ParseIff(s: string, o: Order)
    ensures Parse(s) == Some(o) <==> MatchesPlain(s, o) || MatchesCoalesce(s, o)
  {
    hide ParsePlain, ParseArguments, MatchesPlain, SameLetter, Spaces, IsName, IsNumeral, Arguments;
    if Parse(s) == Some(o) {
      if ParsePlain(s).Some? {
        ReadPlain(s, o);
      } else {
        var q := ReadArguments(o, s[9..]);
        var p := q.(coalesce := s[..8]);
        SameArguments(q, o, s[..8]);
        assert s == s[..8] + ([s[8]] + s[9..]);
        assert Spells(p, o) && s == p.coalesce + ("(" + Arguments(p, o));
      }
    } else {
      if MatchesPlain(s, o) { PlainIsRead(s, o); }
      if MatchesCoalesce(s, o) { CoalesceIsRead(s, o); }
    }
  }

  lemma SameArguments(p: Spelling, o: Order, word: string)
    requires o.Coalesce?
    ensures Arguments(p, o) == Arguments(p.(coalesce := word), o)
  {
  }

  // Every well-formed order is read from its own text.
  lemma ParseOfText(o: Order)
    requires WellFormed(o)
    ensures Parse(Text(o)) == Some(o)
  {
    hide Parse, IsName, IsNumeral, IsIdentifier, SameLetter, Direction;
    var p := Spelling("COALESCE", [], [], " ", [], " ", Direction(o.descending));
    IdentifierIsName(o.column);
    OneSpaceSpells(o);
    TextIs(p, o);
    ParseIff(Text(o), o);
  }

  lemma OneSpaceSpells(o: Order)
    ensures Spells(Spelling("COALESCE", [], [], " ", [], " ", Direction(o.descending)), o)
  {
    hide IsSpace;
    SpaceIsSpace();
  }

  lemma TextIs(p: Spelling, o: Order)
    requires p == Spelling("COALESCE", [], [], " ", [], " ", Direction(o.descending))
    ensures Text(o) == if o.Plain? then o.column + (p.beforeDirection + p.direction) else p.coalesce + ("(" + Arguments(p, o))
  {
    hide Direction;
  }

  lemma SpaceIsSpace()
    ensures IsSpace(' ')
  {
  }

  lemma IdentifierIsName(s: string)
    requires IsIdentifier(s)
    ensures IsName(s)
  {
  }

  // A fallback that is read is a numeral.
  lemma ParsedIsNumeral(s: string)
    requires Parse(s).Some? && Parse(s).value.Coalesce?
    ensures IsNumeral(Parse(s).value.fallback)
  {
    hide Parse, IsNumeral;
    ParseIff(s, Parse(s).value);
  }
}
