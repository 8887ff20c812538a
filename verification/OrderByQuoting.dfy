/**
  The rendering of a validated ORDER BY list with every column quoted.
 */
module OrderByQuoting {
  import opened Wrappers
  import opened OrderBy
  import opened OrderByGrammar

  datatype QuoteError = BadList(error: SplitError) | UnsafeComponent | UnsafeIdentifier | NotAllowed

  function Quoted(column: string): string
  {
    "\"" + column + "\""
  }

  function Render(o: Order): string
  {
    match o
    case Plain(column, descending) => Quoted(column) + " " + Direction(descending)
    case Coalesce(column, fallback, descending) => "COALESCE(" + Quoted(column) + ", " + fallback + ") " + Direction(descending)
  }

  // The rendering of one component, if a pattern matches it, its column is a plain identifier
  // and that is allowed.
  function Rendered(component: string, allowed: set<string>): Result<string, QuoteError>
  {
    match Parse(component)
    case None => Err(UnsafeComponent)
    case Some(o) =>
      if !IsIdentifier(o.column) then Err(UnsafeIdentifier)
      else if o.column !in allowed then Err(NotAllowed)
      else Ok(Render(o))
  }

  method QuoteOrderBy(orderBy: string, allowed: set<string>) returns (r: Result<string, QuoteError>, ghost rendered: seq<string>)
    ensures Strip(orderBy) == "" ==> r == Ok("")
    ensures Strip(orderBy) != "" ==>
      (r.Ok? <==> && Balanced(orderBy) && NoneEmpty(Pieces(orderBy, 0))
                  && forall p :: p in Trimmed(Pieces(orderBy, 0)) ==> Rendered(p, allowed).Ok?)
    ensures r.Ok? && Strip(orderBy) != "" ==>
      && |rendered| == |Pieces(orderBy, 0)| && r.value == Join(rendered, ", ")
      && forall i :: 0 <= i < |rendered| ==> Ok(rendered[i]) == Rendered(Strip(Pieces(orderBy, 0)[i]), allowed)
  {
    hide Balanced, NoneEmpty, Strip, Pieces, Rendered, BlankFirst, Join;
    rendered := [];
    if Strip(orderBy) == "" {
      return Ok(""), [];
    }
    var components := SplitOrderComponents(orderBy);
    if components.Err? {
      return Err(BadList(components.error)), [];
    }
    var done: seq<string> := [];
    for i := 0 to |components.value|
      invariant |done| == i
      invariant forall j :: 0 <= j < i ==> Rendered(components.value[j], allowed) == Ok(done[j])
    {
      var one := Rendered(components.value[i], allowed);
      if one.Err? {
        assert components.value[i] in Trimmed(Pieces(orderBy, 0));
        return Err(one.error), [];
      }
      done := done + [one.value];
    }
    rendered := done;
    r := Ok(Join(done, ", "));
  }

  // ---------- One component ----------

  lemma RenderedIsWellFormed(component: string, allowed: set<string>)
    requires Rendered(component, allowed).Ok?
    ensures var o := Parse(component);
            o.Some? && WellFormed(o.value) && o.value.column in allowed && Rendered(component, allowed) == Ok(Render(o.value))
  {
    hide Parse, IsIdentifier, Render;
    if Parse(component).value.Coalesce? { ParsedIsNumeral(component); }
  }

  // The text ends in a space and a spelling of DESC in either case; the long s counts as one.
  predicate StatesDesc(s: string)
  {
    && |s| >= 5 && IsSpace(s[|s| - 5])
    && s[|s| - 4] in {'D', 'd'} && s[|s| - 3] in {'E', 'e'} && s[|s| - 2] in {'S', 's', '\U{17f}'} && s[|s| - 1] in {'C', 'c'}
  }

  // An accepted component is rendered in exactly this text: DESC if it says so, ASC if it says
  // that or nothing.
  lemma RenderedText(component: string, allowed: set<string>)
    requires Rendered(component, allowed).Ok?
    ensures var o, end := Parse(component).value, if StatesDesc(component) then " DESC" else " ASC";
            Rendered(component, allowed).value ==
              if o.Plain? then "\"" + o.column + "\"" + end else "COALESCE(\"" + o.column + "\", " + o.fallback + ")" + end
  {
    hide Parse, StatesDesc, Render, IsIdentifier, MatchesPlain, MatchesCoalesce;
    var o := Parse(component).value;
    ParseIff(component, o);
    ReadDescending(component, o);
    LiteralText(o);
  }

  lemma LiteralText(o: Order)
    ensures var end := if o.descending then " DESC" else " ASC";
            Render(o) ==
              if o.Plain? then "\"" + o.column + "\"" + end else "COALESCE(\"" + o.column + "\", " + o.fallback + ")" + end
  {
    var d := Direction(o.descending);
    var end := " " + d;
    assert end == if o.descending then " DESC" else " ASC";
    hide Direction;
    if o.Plain? {
      Joined(Quoted(o.column), " ", d);
    } else {
      var start := "COALESCE(" + Quoted(o.column);
      assert start == "COALESCE(\"" + o.column + "\"";
      assert "\"" + ", " == "\", ";
      Joined("COALESCE(\"" + o.column, "\"", ", ");
      Joined(start + ", " + o.fallback, ")", end);
      Joined(start + ", " + o.fallback, ") ", d);
      assert ")" + end == ") " + d;
    }
  }

  lemma Joined(a: string, b: string, c: string)
    ensures a + b + c == a + (b + c)
  {
  }

  lemma ReadDescending(s: string, o: Order)
    requires MatchesPlain(s, o) || MatchesCoalesce(s, o)
    ensures o.descending <==> StatesDesc(s)
  {
    hide IsSpace, IsWordPart, IsNumeral, StatesDesc, SameWord, Direction;
    if s == o.column {
      NamesStateNothing(s);
    } else if o.Plain? {
      var p :| Spells(p, o) && s == o.column + (p.beforeDirection + p.direction);
      DirectionStated(s, p, o);
    } else {
      var p :| Spells(p, o) && s == p.coalesce + ("(" + Arguments(p, o));
      hide Spells, Arguments;
      ArgumentsEnd(p, o);
      Ends("(", Arguments(p, o), p.beforeDirection + p.direction);
      Ends(p.coalesce, "(" + Arguments(p, o), p.beforeDirection + p.direction);
      DirectionStated(s, p, o);
    }
  }

  lemma ArgumentsEnd(p: Spelling, o: Order)
    requires o.Coalesce?
    ensures EndsWith(Arguments(p, o), p.beforeDirection + p.direction)
  {
    hide EndsWith;
    var end := p.beforeDirection + p.direction;
    EndsWithItself(end);
    Ends(")", end, end);
    Ends(p.beforeEnd, ")" + end, end);
    Ends(o.fallback, End(p), end);
    Ends(p.beforeNumeral, o.fallback + End(p), end);
    Ends(",", Fallback(p, o), end);
    Ends(p.beforeComma, "," + Fallback(p, o), end);
    Ends(o.column, p.beforeComma + ("," + Fallback(p, o)), end);
    Ends(p.beforeName, o.column + (p.beforeComma + ("," + Fallback(p, o))), end);
  }

  predicate EndsWith(s: string, end: string)
  {
    |end| <= |s| && s[|s| - |end|..] == end
  }

  lemma Ends(a: string, b: string, end: string)
    requires EndsWith(b, end)
    ensures EndsWith(a + b, end)
  {
  }

  lemma EndsWithItself(s: string)
    ensures EndsWith(s, s)
  {
  }

  lemma NamesStateNothing(s: string)
    requires IsName(s)
    ensures !StatesDesc(s)
  {
    hide IsWordPart, IsSpace;
    if |s| >= 5 { LetterClass(s[|s| - 5]); }
  }

  lemma DirectionStated(s: string, p: Spelling, o: Order)
    requires Spells(p, o) && EndsWith(s, p.beforeDirection + p.direction)
    ensures o.descending <==> StatesDesc(s)
  {
    var end := p.beforeDirection + p.direction;
    assert forall i :: 0 <= i < |end| ==> s[|s| - |end| + i] == end[i];
    var gap := p.beforeDirection[|p.beforeDirection| - 1];
    assert IsSpace(gap);
    assert s[|s| - |p.direction| - 1] == gap;
    if !o.descending { assert gap !in {'D', 'd'}; }
  }

  // A column that is named alone is sorted upwards.
  lemma BareIsAscending(column: string, allowed: set<string>)
    requires IsIdentifier(column) && column in allowed
    ensures Rendered(column, allowed) == Ok("\"" + column + "\" ASC")
  {
    hide Parse, Render;
    IdentifierIsName(column);
    ParseIff(column, Plain(column, false));
    LiteralText(Plain(column, false));
    Joined("\"" + column, "\"", " ASC");
    assert "\"" + " ASC" == "\" ASC";
  }

  function Unquote(s: string): string
  {
    if s == [] then [] else (if s[0] == '"' then [] else [s[0]]) + Unquote(s[1..])
  }

  lemma {:induction false} UnquoteConcat(a: string, b: string)
    ensures Unquote(a + b) == Unquote(a) + Unquote(b)
    decreases |a|
  {
    if a == [] {
      assert a + b == b;
    } else {
      UnquoteConcat(a[1..], b);
      assert (a + b)[1..] == a[1..] + b;
      var first := if a[0] == '"' then [] else [a[0]];
      assert first + (Unquote(a[1..]) + Unquote(b)) == first + Unquote(a[1..]) + Unquote(b);
    }
  }

  lemma {:induction false} NothingToUnquote(s: string)
    requires '"' !in s
    ensures Unquote(s) == s
    decreases |s|
  {
    if s != [] { NothingToUnquote(s[1..]); }
  }

  lemma NumeralChars(s: string)
    requires IsNumeral(s)
    ensures forall c :: c in s ==> c == '-' || c >= '0'
  {

    forall c | c in s ensures c == '-' || c >= '0' {
      var i :| 0 <= i < |s| && s[i] == c;
      if s[0] != '-' {
        DigitClass(s[i]);
      } else if i > 0 {
        assert s[1..][i - 1] == s[i];
        DigitClass(s[i]);
      }
    }
  }

  // A rendering around its two quotes.
  function Before(o: Order): string
  {
    if o.Plain? then "" else "COALESCE("
  }

  function After(o: Order): string
  {
    (if o.Plain? then " " else ", " + o.fallback + ") ") + Direction(o.descending)
  }

  function QuotedBetween(before: string, column: string, after: string): string
  {
    before + ("\"" + (column + ("\"" + after)))
  }

  lemma RenderParts(o: Order)
    ensures Render(o) == QuotedBetween(Before(o), o.column, After(o))
    ensures Text(o) == Before(o) + (o.column + After(o))
    ensures Frame(o) == Before(o) + After(o)
  {
    hide Direction;
    if o.Plain? {
      assert Text(o) == o.column + (" " + Direction(o.descending));
      assert Frame(o) == "" + (" " + Direction(o.descending));
      Regroup("", "\"", o.column, "", "", " ", Direction(o.descending));
    } else {
      Regroup("COALESCE(", "\"", o.column, ", ", o.fallback, ") ", Direction(o.descending));
    }
  }

  lemma Regroup(a: string, quote: string, c: string, b: string, f: string, e: string, d: string)
    ensures a + (quote + c + quote) + b + f + e + d == a + (quote + (c + (quote + (b + f + e + d))))
    ensures a + c + b + f + e + d == a + (c + (b + f + e + d))
    ensures a + b + f + e + d == a + (b + f + e + d)
  {
  }

  lemma PartsWithoutQuotes(o: Order)
    requires WellFormed(o)
    ensures '"' !in Before(o) && '"' !in o.column && '"' !in After(o)
  {
    hide IsNumeral;
    if o.Coalesce? { NumeralChars(o.fallback); }
  }

  lemma UnquoteParts(before: string, column: string, after: string)
    requires '"' !in before && '"' !in column && '"' !in after
    ensures Unquote(QuotedBetween(before, column, after)) == before + (column + after)
  {
    UnquoteOne();
    hide Unquote;
    UnquoteConcat(before, "\"" + (column + ("\"" + after)));
    UnquoteConcat("\"", column + ("\"" + after));
    UnquoteConcat(column, "\"" + after);
    UnquoteConcat("\"", after);
    NothingToUnquote(before);
    NothingToUnquote(column);
    NothingToUnquote(after);
  }

  lemma UnquoteOne()
    ensures Unquote("\"") == []
  {
  }

  // A rendering without its quotes parses back to the order it was made from; so two
  // different orders are never rendered alike.
  lemma RenderReadsBack(o: Order)
    requires WellFormed(o)
    ensures Parse(Unquote(Render(o))) == Some(o)
  {
    hide Parse, Unquote, Render, Text, WellFormed, Before, After, QuotedBetween;
    RenderParts(o);
    PartsWithoutQuotes(o);
    UnquoteParts(Before(o), o.column, After(o));
    ParseOfText(o);
  }

  // ---------- Outside the quotes ----------

  // What is left of a text without its quoted parts.
  function Outside(s: string, inside: bool): string
  {
    if s == [] then []
    else if s[0] == '"' then Outside(s[1..], !inside)
    else (if inside then [] else [s[0]]) + Outside(s[1..], inside)
  }

  lemma {:induction false} OutsideConcat(a: string, b: string, inside: bool)
    requires '"' !in a
    ensures Outside(a + b, inside) == (if inside then [] else a) + Outside(b, inside)
    decreases |a|
  {
    if a == [] {
      assert a + b == b;
    } else {
      OutsideConcat(a[1..], b, inside);
      assert (a + b)[1..] == a[1..] + b;
    }
  }

  lemma OutsideQuote(b: string, inside: bool)
    ensures Outside("\"" + b, inside) == Outside(b, !inside)
  {
    assert ("\"" + b)[1..] == b;
  }

  function Frame(o: Order): string
  {
    match o
    case Plain(_, descending) => " " + Direction(descending)
    case Coalesce(_, fallback, descending) => "COALESCE(" + ", " + fallback + ") " + Direction(descending)
  }

  lemma OutsideParts(before: string, column: string, after: string)
    requires '"' !in before && '"' !in column && '"' !in after
    ensures Outside(QuotedBetween(before, column, after), false) == before + after
  {
    OutsideNothing();
    hide Outside;
    OutsideConcat(before, "\"" + (column + ("\"" + after)), false);
    OutsideQuote(column + ("\"" + after), false);
    OutsideConcat(column, "\"" + after, true);
    OutsideQuote(after, true);
    assert after + [] == after;
    OutsideConcat(after, [], false);
  }

  lemma OutsideNothing()
    ensures Outside([], false) == []
  {
  }

  lemma OutsideRender(o: Order)
    requires WellFormed(o)
    ensures Outside(Render(o), false) == Frame(o)
  {
    hide Outside, Render, WellFormed, Before, After, QuotedBetween, Frame;
    RenderParts(o);
    PartsWithoutQuotes(o);
    OutsideParts(Before(o), o.column, After(o));
  }

  // A number as SQL knows it.
  predicate IsSqlNumeral(s: string)
  {
    Digits(s) != [] && forall i :: 0 <= i < |Digits(s)| ==> '0' <= Digits(s)[i] <= '9'
  }

  // Nothing but the keywords, their punctuation and at most a numeral.
  ghost predicate OnlyFixedText(s: string)
  {
    || (exists descending :: s == " " + Direction(descending))
    || (exists descending, numeral :: IsSqlNumeral(numeral) && s == "COALESCE(" + ", " + numeral + ") " + Direction(descending))
  }

  // Outside the quotes a rendering has only that exactly when the digits of its fallback are
  // ASCII digits; the pattern accepts every decimal digit of Unicode.
  lemma FixedTextIff(o: Order)
    requires WellFormed(o)
    ensures OnlyFixedText(Outside(Render(o), false)) <==> (o.Coalesce? ==> IsSqlNumeral(o.fallback))
  {
    hide WellFormed, Outside, Render, IsSqlNumeral;
    OutsideRender(o);
    if o.Plain? {
      assert Frame(o) == " " + Direction(o.descending);
    } else {
      if IsSqlNumeral(o.fallback) {
        assert Frame(o) == "COALESCE(" + ", " + o.fallback + ") " + Direction(o.descending);
      }
      forall descending ensures Frame(o) != " " + Direction(descending) {
        assert Frame(o)[0] == 'C';
      }
      forall descending, numeral | IsSqlNumeral(numeral) && Frame(o) == "COALESCE(" + ", " + numeral + ") " + Direction(descending)
        ensures IsSqlNumeral(o.fallback)
      {
        FrameIsUnique(o.fallback, o.descending, numeral, descending);
      }
    }
  }

  lemma FrameIsUnique(a: string, x: bool, b: string, y: bool)
    requires "COALESCE(" + ", " + a + ") " + Direction(x) == "COALESCE(" + ", " + b + ") " + Direction(y)
    ensures a == b
  {
    var s, t := "COALESCE(" + ", " + a + ") " + Direction(x), "COALESCE(" + ", " + b + ") " + Direction(y);
    assert |s| > 4 && s[|s| - 4] == if x then 'D' else ' ';
    assert t[|t| - 4] == if y then 'D' else ' ';
    assert s[11..11 + |a|] == a && t[11..11 + |b|] == b;
  }

  // An accepted fallback that SQL does not read as a number, but as the name of a column.
  lemma ArabicIndicFallback()
    ensures var component, rendered := "COALESCE(score, \U{663}) DESC", "COALESCE(\"score\", \U{663}) DESC";
            Rendered(component, {"score"}) == Ok(rendered) && !OnlyFixedText(Outside(rendered, false))
  {
    var o, digit := Coalesce("score", "\U{663}", true), "\U{663}";
    assert |digit| == 1 && digit[0] == '\U{663}' && IsDigit(digit[0]);
    assert Digits(digit)[0] == digit[0] > '9';
    assert IsNumeral(digit) && !IsSqlNumeral(digit);
    var name := "score";
    assert name[0] == 's' && name[1] == 'c' && name[2] == 'o' && name[3] == 'r' && name[4] == 'e' && IsIdentifier(name);
    assert Text(o) == "COALESCE(score, \U{663}) DESC" && Render(o) == "COALESCE(\"score\", \U{663}) DESC";
    hide WellFormed, IsSqlNumeral, Outside, Parse, Text, Render, OnlyFixedText;
    ParseOfText(o);
    FixedTextIff(o);
  }

  // ---------- The rendered list is what was validated ----------

  ghost predicate NoParentheses(s: string)
  {
    forall c :: c in s ==> c != '(' && c != ')'
  }

  lemma {:induction false} FlatDepth(s: string)
    requires NoParentheses(s)
    ensures Depth(s) == 0 && forall i :: 0 <= i <= |s| ==> Depth(s[..i]) == 0
    decreases |s|
  {
    if s == [] {
      assert s[..0] == s;
    } else {
      var init := s[..|s| - 1];
      forall c | c in init ensures c != '(' && c != ')' {
        var i :| 0 <= i < |init| && init[i] == c;
        assert s[i] in s;
      }
      assert s[|s| - 1] in s;
      FlatDepth(init);
      forall i | 0 <= i <= |s| ensures Depth(s[..i]) == 0 {
        if i < |s| {
          assert s[..|s| - 1][..i] == s[..i];
        } else {
          assert s[..i] == s;
        }
      }
    }
  }

  // A parenthesis pair around text without any, and text without any or commas about it.
  lemma Enclosed(a: string, inner: string, b: string)
    requires NoParentheses(a) && NoParentheses(inner) && NoParentheses(b)
    requires ',' !in a && ',' !in b
    ensures var s := a + "(" + inner + ")" + b; Balanced(s) && forall k :: !TopComma(s, k)
  {
    var s := a + "(" + inner + ")" + b;
    forall i | 0 <= i <= |s|
      ensures Depth(s[..i]) == if |a| < i <= |a| + 1 + |inner| then 1 else 0
    {
      PrefixDepth(a, inner, b, i);
    }
    assert s[..|s|] == s;
    assert forall k :: 0 <= k < |a| ==> s[k] == a[k];
    assert forall k :: |a| + 1 + |inner| < k < |s| ==> s[k] == b[k - |a| - |inner| - 2];
  }

  lemma PrefixDepth(a: string, inner: string, b: string, i: nat)
    requires NoParentheses(a) && NoParentheses(inner) && NoParentheses(b)
    requires i <= |a + "(" + inner + ")" + b|
    ensures Depth((a + "(" + inner + ")" + b)[..i]) == if |a| < i <= |a| + 1 + |inner| then 1 else 0
  {
    var s := a + "(" + inner + ")" + b;
    FlatDepth(a);
    FlatDepth(inner);
    FlatDepth(b);
    DepthOfOne('(');
    DepthOfOne(')');
    hide Depth;
    DepthOfConcat(a, "(");
    if i <= |a| {
      assert s[..i] == a[..i];
    } else if i <= |a| + 1 + |inner| {
      assert s[..i] == (a + "(") + inner[..i - |a| - 1];
      DepthOfConcat(a + "(", inner[..i - |a| - 1]);
    } else {
      var j := i - |a| - |inner| - 2;
      DepthOfConcat(a + "(", inner);
      DepthOfConcat(a + "(" + inner, ")");
      DepthOfConcat(a + "(" + inner + ")", b[..j]);
      assert s[..i] == a + "(" + inner + ")" + b[..j];
    }
  }

  lemma NothingToStrip(s: string)
    requires s != [] && !IsSpace(s[0]) && !IsSpace(s[|s| - 1])
    ensures Strip(s) == s
  {
  }

  lemma RenderIsComponent(o: Order)
    requires WellFormed(o)
    ensures Component(Render(o))
  {
    hide IsSpace, Depth, NeverNegative, Balanced, TopComma, TrimLeft, TrimRight, IsNumeral;
    var s, tail := Render(o), " " + Direction(o.descending);
    if o.Plain? {
      PlainIsFlat(o);
      FlatIsBalanced(s);
    } else {
      ArgumentsAreFlat(o);
      assert s == "COALESCE" + "(" + (Quoted(o.column) + ", " + o.fallback) + ")" + tail;
      Enclosed("COALESCE", Quoted(o.column) + ", " + o.fallback, tail);
    }
    Solid();
    NothingToStrip(s);
  }

  ghost predicate Flat(s: string)
  {
    NoParentheses(s) && ',' !in s
  }

  lemma FlatConcat(a: string, b: string)
    requires Flat(a) && Flat(b)
    ensures Flat(a + b)
  {
  }

  lemma FlatName(column: string, descending: bool)
    requires IsIdentifier(column)
    ensures Flat(column) && Flat("\"") && Flat(" ") && Flat(Direction(descending))
  {
  }

  lemma PlainIsFlat(o: Order)
    requires WellFormed(o) && o.Plain?
    ensures NoParentheses(Render(o)) && ',' !in Render(o)
  {
    FlatName(o.column, o.descending);
    assert Flat(Render(o)) by {
      hide Flat, IsIdentifier, Direction;
      FlatConcat("\"", o.column);
      FlatConcat("\"" + o.column, "\"");
      FlatConcat(Quoted(o.column), " ");
      FlatConcat(Quoted(o.column) + " ", Direction(o.descending));
    }
  }

  lemma ArgumentsAreFlat(o: Order)
    requires WellFormed(o) && o.Coalesce?
    ensures NoParentheses(Quoted(o.column) + ", " + o.fallback)
  {
    hide IsNumeral;
    NumeralChars(o.fallback);
    assert forall c :: c in o.column ==> c != '(' && c != ')';
  }

  lemma FlatIsBalanced(s: string)
    requires NoParentheses(s) && ',' !in s
    ensures Balanced(s) && forall k :: !TopComma(s, k)
  {
    FlatDepth(s);
  }

  lemma Solid()
    ensures !IsSpace('"') && !IsSpace('C')
  {
  }

  // The quoted clause splits into exactly the rendered components: no column name or
  // number can add a component to it or take one away.
  lemma QuotedListSplits(rendered: seq<string>, components: seq<string>, allowed: set<string>)
    requires |rendered| == |components| > 0
    requires forall i :: 0 <= i < |rendered| ==> Ok(rendered[i]) == Rendered(components[i], allowed)
    ensures var s := Join(rendered, ", ");
            Balanced(s) && NoneEmpty(Pieces(s, 0)) && Trimmed(Pieces(s, 0)) == rendered
  {
    hide Balanced, NoneEmpty, Component, Rendered, Render, Join, Parse;
    forall p | p in rendered ensures Component(p) {
      var i :| 0 <= i < |rendered| && rendered[i] == p;
      RenderedIsWellFormed(components[i], allowed);
      RenderIsComponent(Parse(components[i]).value);
    }
    SplitOfJoin(rendered);
  }
}
