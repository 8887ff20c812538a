/**
  The splitter of ORDER BY lists: components are separated by the commas that stand
  outside every parenthesis.
 */
module OrderBy {
  import opened Wrappers

  datatype SplitError = UnbalancedParentheses | EmptyComponent

  // ---------- Whitespace ----------

  // What `str.strip` removes.
  predicate IsSpace(c: char)
  {
    || '\t' <= c <= '\r' || '\U{1c}' <= c <= ' ' || c == '\U{85}' || c == '\U{a0}' || c == '\U{1680}'
    || '\U{2000}' <= c <= '\U{200a}' || c == '\U{2028}' || c == '\U{2029}' || c == '\U{202f}'
    || c == '\U{205f}' || c == '\U{3000}'
  }

  function TrimLeft(s: string): string
  {
    if s != [] && IsSpace(s[0]) then TrimLeft(s[1..]) else s
  }

  function TrimRight(s: string): string
  {
    if s != [] && IsSpace(s[|s| - 1]) then TrimRight(s[..|s| - 1]) else s
  }

  function Strip(s: string): string
  {
    TrimRight(TrimLeft(s))
  }

  // ---------- Parentheses ----------

  function Weight(c: char): int
  {
    if c == '(' then 1 else if c == ')' then -1 else 0
  }

  function Depth(s: string): int
  {
    if s == [] then 0 else Depth(s[..|s| - 1]) + Weight(s[|s| - 1])
  }

  // No parenthesis closes before it opens.
  ghost predicate NeverNegative(s: string)
  {
    forall i :: 0 <= i <= |s| ==> Depth(s[..i]) >= 0
  }

  ghost predicate Balanced(s: string)
  {
    NeverNegative(s) && Depth(s) == 0
  }

  predicate TopComma(s: string, k: int)
  {
    0 <= k < |s| && s[k] == ',' && Depth(s[..k]) == 0
  }

  // The first comma from `i` on outside all parentheses, or the end.
  function FirstComma(s: string, i: nat): (k: nat)
    requires i <= |s|
    ensures i <= k <= |s|
    ensures forall j :: i <= j < k ==> !TopComma(s, j)
    ensures k < |s| ==> TopComma(s, k)
    decreases |s| - i
  {
    if i == |s| || TopComma(s, i) then i else FirstComma(s, i + 1)
  }

  // The text between consecutive top-level commas, from `i` on.
  function Pieces(s: string, i: nat): (pieces: seq<string>)
    requires i <= |s|
    ensures pieces != []
    decreases |s| - i
  {
    var k := FirstComma(s, i);
    if k == |s| then [s[i..]] else [s[i..k]] + Pieces(s, k + 1)
  }

  function Trimmed(pieces: seq<string>): (r: seq<string>)
    ensures |r| == |pieces| && forall i :: 0 <= i < |r| ==> r[i] == Strip(pieces[i])
  {
    seq(|pieces|, i requires 0 <= i < |pieces| => Strip(pieces[i]))
  }

  ghost predicate NoneEmpty(pieces: seq<string>)
  {
    forall p :: p in pieces ==> Strip(p) != []
  }

  // The component that ends at `k` is blank.
  ghost predicate BlankUpTo(s: string, k: nat)
    requires k <= |s|
  {
    exists i :: 0 <= i <= k && (i == 0 || TopComma(s, i - 1)) && Strip(s[i..k]) == []
  }

  // A blank component is met before any parenthesis is found unbalanced.
  ghost predicate BlankFirst(s: string)
  {
    || (exists k :: TopComma(s, k) && NeverNegative(s[..k]) && BlankUpTo(s, k))
    || (Balanced(s) && BlankUpTo(s, |s|))
  }

  ghost predicate Component(s: string)
  {
    Strip(s) == s && s != [] && Balanced(s) && forall k :: !TopComma(s, k)
  }

  // ---------- The scanner ----------

  method SplitOrderComponents(value: string) returns (r: Result<seq<string>, SplitError>)
    ensures r.Ok? <==> Balanced(value) && NoneEmpty(Pieces(value, 0))
    ensures r.Ok? ==> r.value == Trimmed(Pieces(value, 0))
    ensures r == Err(EmptyComponent) <==> BlankFirst(value)
  {
    hide TopComma, Depth, Pieces, Strip, Scanned, Balanced, BlankFirst, IsSpace;
    var parts: seq<string> := [];
    ghost var raw: seq<string> := [];
    var start, depth := 0, 0;
    ScanStarts(value);
    for index := 0 to |value|
      invariant 0 <= start <= index && depth == Depth(value[..index])
      invariant Scanned(value, start, index)
      invariant Pieces(value, 0) == raw + Pieces(value, start)
      invariant parts == Trimmed(raw) && NoneEmpty(raw)
    {
      Extend(value, index);
      var character := value[index];
      if character == '(' {
        depth := depth + 1;
        ScanGoesOn(value, start, index);
      } else if character == ')' {
        depth := depth - 1;
        if depth < 0 {
          ScanMeetsClose(value, start, index);
          return Err(UnbalancedParentheses);
        }
        ScanGoesOn(value, start, index);
      } else if character == ',' && depth == 0 {
        var part := Strip(value[start..index]);
        ScanCuts(value, start, index);
        if part == [] {
          assert value[start..index] in Pieces(value, 0);
          return Err(EmptyComponent);
        }
        parts := parts + [part];
        raw := raw + [value[start..index]];
        start := index + 1;
      } else {
        ScanGoesOn(value, start, index);
      }
    }
    ScanEnds(value, start);
    if depth != 0 {
      return Err(UnbalancedParentheses);
    }
    var final := Strip(value[start..]);
    if final == [] {
      assert value[start..] in Pieces(value, 0);
      return Err(EmptyComponent);
    }
    parts := parts + [final];
    r := Ok(parts);
  }

  // ---------- The scan ----------

  // Up to `index` nothing is wrong, and the current component starts at `start`.
  ghost predicate Scanned(s: string, start: nat, index: nat)
    requires start <= index <= |s|
  {
    && (start == 0 || TopComma(s, start - 1))
    && (forall j :: start <= j < index ==> !TopComma(s, j))
    && NeverNegative(s[..index])
    && forall k :: 0 <= k < index && TopComma(s, k) ==> !BlankUpTo(s, k)
  }

  lemma ScanStarts(s: string)
    ensures Scanned(s, 0, 0) && Depth(s[..0]) == 0
  {
  }

  lemma ScanGoesOn(s: string, start: nat, index: nat)
    requires start <= index < |s| && Scanned(s, start, index)
    requires !(s[index] == ',' && Depth(s[..index]) == 0) && Depth(s[..index + 1]) >= 0
    ensures Scanned(s, start, index + 1)
  {
    hide Depth, BlankUpTo;
    Extend(s, index);
  }

  lemma ScanMeetsClose(s: string, start: nat, index: nat)
    requires start <= index < |s| && Scanned(s, start, index)
    requires s[index] == ')' && Depth(s[..index + 1]) < 0
    ensures !Balanced(s) && !BlankFirst(s)
  {
    hide Depth, BlankUpTo;
    NegativeStays(s, index + 1);
  }

  lemma ScanCuts(s: string, start: nat, index: nat)
    requires start <= index < |s| && Scanned(s, start, index)
    requires s[index] == ',' && Depth(s[..index]) == 0
    ensures Pieces(s, start) == [s[start..index]] + Pieces(s, index + 1)
    ensures Depth(s[..index + 1]) == 0
    ensures if Strip(s[start..index]) == [] then BlankFirst(s) else Scanned(s, index + 1, index + 1)
  {
    hide BlankUpTo, Strip;
    FirstCommaIs(s, start, index);
    Extend(s, index);
    if Strip(s[start..index]) == [] {
      BlankPiece(s, start, index);
    } else {
      NotBlank(s, start, index);
    }
  }

  lemma ScanEnds(s: string, start: nat)
    requires start <= |s| && Scanned(s, start, |s|)
    ensures Pieces(s, start) == [s[start..]]
    ensures Balanced(s) <==> Depth(s[..|s|]) == 0
    ensures BlankFirst(s) <==> Balanced(s) && Strip(s[start..]) == []
  {
    hide BlankUpTo, Strip;
    assert s[..|s|] == s && s[start..|s|] == s[start..];
    FirstCommaIs(s, start, |s|);
    if Strip(s[start..]) == [] {
      BlankPiece(s, start, |s|);
    } else {
      NotBlank(s, start, |s|);
    }
  }

  lemma BlankPiece(s: string, start: nat, end: nat)
    requires start <= end <= |s| && (start == 0 || TopComma(s, start - 1)) && Strip(s[start..end]) == []
    ensures BlankUpTo(s, end)
  {
  }

  // ---------- Depth ----------

  lemma Extend(s: string, i: nat)
    requires i < |s|
    ensures Depth(s[..i + 1]) == Depth(s[..i]) + Weight(s[i])
    ensures NeverNegative(s[..i + 1]) <==> NeverNegative(s[..i]) && Depth(s[..i + 1]) >= 0
  {
    assert s[..i + 1][..i] == s[..i];
    var old', new' := s[..i], s[..i + 1];
    if NeverNegative(new') {
      forall j | 0 <= j <= |old'| ensures Depth(old'[..j]) >= 0 { assert new'[..j] == old'[..j]; }
      assert new'[..i + 1] == new';
    }
    if NeverNegative(old') && Depth(new') >= 0 {
      forall j | 0 <= j <= |new'| ensures Depth(new'[..j]) >= 0 {
        assert new'[..j] == if j <= i then old'[..j] else new';
      }
    }
  }

  lemma NegativeStays(s: string, i: nat)
    requires i <= |s| && Depth(s[..i]) < 0
    ensures !NeverNegative(s) && forall k :: i <= k <= |s| ==> !NeverNegative(s[..k])
  {
    forall k | i <= k <= |s| ensures !NeverNegative(s[..k]) {
      assert s[..k][..i] == s[..i];
    }
    assert s[..|s|] == s;
  }

  lemma {:induction false} DepthOfConcat(a: string, b: string)
    ensures Depth(a + b) == Depth(a) + Depth(b)
    decreases |b|
  {
    if b == [] {
      assert a + b == a;
    } else {
      DepthOfConcat(a, b[..|b| - 1]);
      assert (a + b)[..|a + b| - 1] == a + b[..|b| - 1];
    }
  }

  // ---------- Pieces ----------

  lemma {:induction false} FirstCommaIs(s: string, i: nat, k: nat)
    requires i <= k <= |s| && (k == |s| || TopComma(s, k))
    requires forall j :: i <= j < k ==> !TopComma(s, j)
    ensures FirstComma(s, i) == k
  {
  }

  lemma {:induction false} BlankMeansSpaces(s: string)
    ensures Strip(s) == [] <==> forall c :: c in s ==> IsSpace(c)
  {
    LeftBlank(s);
    RightBlank(TrimLeft(s));
  }

  lemma {:induction false} LeftBlank(s: string)
    ensures TrimLeft(s) == [] <==> forall c :: c in s ==> IsSpace(c)
    ensures TrimLeft(s) != [] ==> !IsSpace(TrimLeft(s)[0])
    decreases |s|
  {
    if s != [] {
      LeftBlank(s[1..]);
      assert s == [s[0]] + s[1..];
    }
  }

  lemma {:induction false} RightBlank(s: string)
    ensures TrimRight(s) == [] <==> forall c :: c in s ==> IsSpace(c)
    ensures TrimRight(s) != [] ==> !IsSpace(TrimRight(s)[|TrimRight(s)| - 1])
    decreases |s|
  {
    if s != [] {
      RightBlank(s[..|s| - 1]);
      assert s == s[..|s| - 1] + [s[|s| - 1]];
    }
  }

  // A component that starts further back holds the comma in between.
  lemma NotBlank(s: string, start: nat, end: nat)
    requires start <= end <= |s| && (start == 0 || TopComma(s, start - 1))
    requires forall j :: start <= j < end ==> !TopComma(s, j)
    requires Strip(s[start..end]) != []
    ensures !BlankUpTo(s, end)
  {
    forall i | 0 <= i <= end && (i == 0 || TopComma(s, i - 1)) ensures Strip(s[i..end]) != [] {
      if i < start {
        BlankMeansSpaces(s[i..end]);
        assert s[i..end][start - 1 - i] == ',';
        assert ',' in s[i..end] && !IsSpace(',');
      }
    }
  }

  // ---------- Joining ----------

  function Join(parts: seq<string>, separator: string): string
  {
    if parts == [] then ""
    else if |parts| == 1 then parts[0]
    else parts[0] + separator + Join(parts[1..], separator)
  }

  // The cuts are all that is lost.
  lemma {:induction false} PiecesRejoin(s: string, i: nat)
    requires i <= |s|
    ensures Join(Pieces(s, i), ",") == s[i..]
    decreases |s| - i
  {
    var k := FirstComma(s, i);
    if k < |s| {
      PiecesRejoin(s, k + 1);
      assert Pieces(s, i)[1..] == Pieces(s, k + 1);
      assert s[i..] == s[i..k] + "," + s[k + 1..];
    }
  }

  // Text before a depth-0 point does not change the pieces after it.
  lemma CommaShifts(a: string, b: string, k: nat)
    requires Depth(a) == 0 && k <= |b|
    ensures TopComma(a + b, |a| + k) <==> TopComma(b, k)
  {
    DepthOfConcat(a, b[..k]);
    assert (a + b)[..|a| + k] == a + b[..k];
  }

  lemma {:induction false} PiecesShift(a: string, b: string, i: nat)
    requires Depth(a) == 0 && i <= |b|
    ensures Pieces(a + b, |a| + i) == Pieces(b, i)
    decreases |b| - i
  {
    hide Depth, TopComma;
    var k := FirstComma(b, i);
    forall j | 0 <= j <= |b| ensures TopComma(a + b, |a| + j) <==> TopComma(b, j) { CommaShifts(a, b, j); }
    forall j | |a| + i <= j < |a| + k ensures !TopComma(a + b, j) {
      assert !TopComma(b, j - |a|);
      assert |a| + (j - |a|) == j;
    }
    FirstCommaIs(a + b, |a| + i, |a| + k);
    assert (a + b)[|a| + i..|a| + k] == b[i..k];
    if k < |b| {
      PiecesShift(a, b, k + 1);
    } else {
      assert (a + b)[|a| + i..] == b[i..];
    }
  }

  // A text without a top-level comma, then a comma, then the rest.
  lemma CutOff(p: string, rest: string)
    requires Depth(p) == 0 && forall k :: !TopComma(p, k)
    ensures Pieces(p + "," + rest, 0) == [p] + Pieces(rest, 0)
  {
    var s := p + "," + rest;
    forall j | 0 <= j < |p| ensures !TopComma(s, j) {
      assert s[..j] == p[..j];
      assert !TopComma(p, j);
    }
    assert s[..|p|] == p;
    FirstCommaIs(s, 0, |p|);
    assert s == (p + ",") + rest;
    DepthOfConcat(p, ",");
    PiecesShift(p + ",", rest, 0);
  }

  // A blank in front of a component is trimmed off again.
  lemma {:induction false} SpaceBefore(p: string)
    ensures Strip(" " + p) == Strip(p)
    ensures Depth(" " + p) == Depth(p)
    ensures (forall k :: !TopComma(p, k)) ==> forall k :: !TopComma(" " + p, k)
  {
    assert (" " + p)[1..] == p;
    DepthOfConcat(" ", p);
    forall k | 0 <= k <= |p| ensures TopComma(" " + p, 1 + k) <==> TopComma(p, k) { CommaShifts(" ", p, k); }
    if forall k :: !TopComma(p, k) {
      forall k ensures !TopComma(" " + p, k) {
        if 1 <= k <= |p| { assert !TopComma(p, k - 1); assert 1 + (k - 1) == k; }
      }
    }
  }

  lemma PiecesOfSpace(b: string)
    ensures Pieces(" " + b, 0) == [" " + Pieces(b, 0)[0]] + Pieces(b, 0)[1..]
  {
    hide Depth, TopComma;
    var s, k := " " + b, FirstComma(b, 0);
    assert Depth(" ") == 0 by { DepthOfOne(' '); }
    forall j | 0 <= j <= |b| ensures TopComma(s, 1 + j) <==> TopComma(b, j) { CommaShifts(" ", b, j); }
    forall j | 0 <= j < 1 + k ensures !TopComma(s, j) {
      if j > 0 { assert !TopComma(b, j - 1) && 1 + (j - 1) == j; } else { NoComma(s, 0); }
    }
    FirstCommaIs(s, 0, 1 + k);
    assert s[..1 + k] == " " + b[..k];
    if k < |b| { PiecesShift(" ", b, k + 1); }
  }

  lemma DepthOfOne(c: char)
    ensures Depth([c]) == Weight(c)
  {
    assert [c][..0] == [];
  }

  lemma NoComma(s: string, k: nat)
    requires k < |s| && s[k] != ','
    ensures !TopComma(s, k)
  {
  }

  lemma BalancedConcat(a: string, b: string)
    requires Balanced(a) && Balanced(b)
    ensures Balanced(a + b)
  {
    DepthOfConcat(a, b);
    forall i | 0 <= i <= |a + b| ensures Depth((a + b)[..i]) >= 0 {
      if i <= |a| {
        assert (a + b)[..i] == a[..i];
      } else {
        assert (a + b)[..i] == a + b[..i - |a|];
        DepthOfConcat(a, b[..i - |a|]);
      }
    }
  }

  lemma SeparatorIsBalanced()
    ensures Balanced(", ")
  {
    assert ", "[..0] == "" && ", "[..1] == "," && ", "[..2] == ", ";
  }

  lemma JoinStep(p: string, rest: string, parts: seq<string>)
    requires Component(p) && Balanced(rest) && NoneEmpty(Pieces(rest, 0)) && Trimmed(Pieces(rest, 0)) == parts
    ensures var s := p + ", " + rest;
            Balanced(s) && NoneEmpty(Pieces(s, 0)) && Trimmed(Pieces(s, 0)) == [p] + parts
  {
    hide Depth, TopComma, NeverNegative, TrimLeft, TrimRight, FirstComma, Pieces;
    var s, tail := p + ", " + rest, " " + rest;
    SeparatorIsBalanced();
    BalancedConcat(p, ", ");
    BalancedConcat(p + ", ", rest);
    assert s == p + "," + tail;
    CutOff(p, tail);
    PiecesOfSpace(rest);
    var first := Pieces(rest, 0)[0];
    SpaceBefore(first);
    assert Pieces(rest, 0) == [first] + Pieces(rest, 0)[1..];
    assert Pieces(s, 0) == [p, " " + first] + Pieces(rest, 0)[1..];
  }

  // Splitting undoes joining.
  lemma {:induction false} SplitOfJoin(parts: seq<string>)
    requires parts != [] && forall p :: p in parts ==> Component(p)
    ensures var s := Join(parts, ", ");
            Balanced(s) && NoneEmpty(Pieces(s, 0)) && Trimmed(Pieces(s, 0)) == parts
    decreases |parts|
  {
    hide Depth, TopComma, Balanced, Strip;
    var p := parts[0];
    assert parts == [p] + parts[1..];
    if |parts| == 1 {
      Alone(p);
    } else {
      SplitOfJoin(parts[1..]);
      JoinStep(p, Join(parts[1..], ", "), parts[1..]);
    }
  }

  lemma Alone(p: string)
    requires Component(p)
    ensures Balanced(p) && Pieces(p, 0) == [p] && Strip(p) == p != []
  {
    FirstCommaIs(p, 0, |p|);
    assert p[0..] == p;
  }

  // ---------- What a successful split returns ----------

  lemma {:induction false} TrimLeftKeeps(p: string)
    requires Balanced(p) && forall k :: !TopComma(p, k)
    ensures Balanced(TrimLeft(p)) && forall k :: !TopComma(TrimLeft(p), k)
    decreases |p|
  {
    if p != [] && IsSpace(p[0]) {
      var tail := p[1..];
      assert p == [p[0]] + tail;
      DepthOfOne(p[0]);
      forall j | 0 <= j <= |tail| ensures Depth(tail[..j]) == Depth(p[..1 + j]) {
        assert p[..1 + j] == [p[0]] + tail[..j];
        DepthOfConcat([p[0]], tail[..j]);
      }
      assert p[..1 + |tail|] == p && tail[..|tail|] == tail;
      forall k ensures !TopComma(tail, k) {
        if 0 <= k < |tail| { assert !TopComma(p, 1 + k); }
      }
      TrimLeftKeeps(tail);
    }
  }

  lemma {:induction false} TrimRightKeeps(p: string)
    requires Balanced(p) && forall k :: !TopComma(p, k)
    ensures Balanced(TrimRight(p)) && forall k :: !TopComma(TrimRight(p), k)
    decreases |p|
  {
    if p != [] && IsSpace(p[|p| - 1]) {
      var init := p[..|p| - 1];
      assert forall j :: 0 <= j <= |init| ==> init[..j] == p[..j];
      forall j | 0 <= j <= |init| ensures Depth(init[..j]) >= 0 { assert Depth(p[..j]) >= 0; }
      forall k ensures !TopComma(init, k) {
        if 0 <= k < |init| { assert !TopComma(p, k); }
      }
      TrimRightKeeps(init);
    }
  }

  lemma {:induction false} TrimRightIsPrefix(s: string)
    ensures |TrimRight(s)| <= |s| && TrimRight(s) == s[..|TrimRight(s)|]
    decreases |s|
  {
    if s != [] && IsSpace(s[|s| - 1]) { TrimRightIsPrefix(s[..|s| - 1]); }
  }

  lemma StripTwice(s: string)
    ensures Strip(Strip(s)) == Strip(s)
  {
    var left := TrimLeft(s);
    LeftBlank(s);
    RightBlank(left);
    TrimRightIsPrefix(left);
  }

  // The text between two neighbouring depth-0 commas is balanced and has no such comma.
  lemma PieceIsBalanced(s: string, i: nat, k: nat)
    requires Balanced(s) && i <= k <= |s| && Depth(s[..i]) == 0 && Depth(s[..k]) == 0
    requires forall j :: i <= j < k ==> !TopComma(s, j)
    ensures Balanced(s[i..k]) && forall j :: !TopComma(s[i..k], j)
  {
    var p := s[i..k];
    forall j | 0 <= j <= |p| ensures Depth(p[..j]) == Depth(s[..i + j]) >= 0 {
      assert s[..i + j] == s[..i] + p[..j];
      DepthOfConcat(s[..i], p[..j]);
    }
    assert p[..|p|] == p && s[..i + |p|] == s[..k];
    forall j ensures !TopComma(p, j) {
      if 0 <= j < |p| { assert !TopComma(s, i + j); }
    }
  }

  lemma {:induction false} PiecesAreComponents(s: string, i: nat)
    requires Balanced(s) && i <= |s| && Depth(s[..i]) == 0 && NoneEmpty(Pieces(s, i))
    ensures forall p :: p in Trimmed(Pieces(s, i)) ==> Component(p)
    decreases |s| - i
  {
    hide Balanced, NeverNegative, Strip, Depth, TopComma;
    var k := FirstComma(s, i);
    assert Depth(s[..k]) == 0 by { DepthAtCut(s, k); }
    PieceIsBalanced(s, i, k);
    assert s[i..|s|] == s[i..];
    assert Pieces(s, i)[0] == s[i..k];
    StripKeeps(s[i..k]);
    if k < |s| {
      assert Depth(s[..k + 1]) == 0 by { DepthAtCut(s, k); }
      assert forall p :: p in Pieces(s, k + 1) ==> p in Pieces(s, i);
      PiecesAreComponents(s, k + 1);
      assert Trimmed(Pieces(s, i)) == [Strip(s[i..k])] + Trimmed(Pieces(s, k + 1));
    }
  }

  lemma DepthAtCut(s: string, k: nat)
    requires Balanced(s) && k <= |s| && (k == |s| || TopComma(s, k))
    ensures Depth(s[..k]) == 0 && (k < |s| ==> Depth(s[..k + 1]) == 0)
  {
    if k < |s| { Extend(s, k); } else { assert s[..k] == s; }
  }

  lemma StripKeeps(p: string)
    requires Balanced(p) && (forall k :: !TopComma(p, k)) && Strip(p) != []
    ensures Component(Strip(p))
  {
    hide Balanced, TopComma, TrimLeft, TrimRight;
    TrimLeftKeeps(p);
    TrimRightKeeps(TrimLeft(p));
    StripTwice(p);
  }

  // A split list can be joined and split again without change.
  lemma SplitIsStable(s: string)
    requires Balanced(s) && NoneEmpty(Pieces(s, 0))
    ensures var parts := Trimmed(Pieces(s, 0));
            && (forall p :: p in parts ==> Component(p))
            && Trimmed(Pieces(Join(parts, ", "), 0)) == parts
  {
    hide Balanced, Component, NoneEmpty, Join;
    assert s[..0] == [];
    PiecesAreComponents(s, 0);
    SplitOfJoin(Trimmed(Pieces(s, 0)));
  }
}
