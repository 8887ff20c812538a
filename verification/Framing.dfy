/**
  The byte string that daily learning hashes: labelled parts in label order, every label
  and payload preceded by its length in eight big-endian bytes.
 */
module Framing {
  import opened Wrappers

  type Byte = b: int | 0 <= b < 256
  type Bytes = seq<Byte>
  datatype Part = Part(name: Bytes, payload: Bytes)

  // ---------- Lengths ----------

  function BigEndian(n: nat, width: nat): (r: Bytes)
    ensures |r| == width
  {
    if width == 0 then [] else BigEndian(n / 256, width - 1) + [n % 256]
  }

  function Number(b: Bytes): nat
  {
    if b == [] then 0 else Number(b[..|b| - 1]) * 256 + b[|b| - 1]
  }

  function Power(width: nat): nat
  {
    if width == 0 then 1 else 256 * Power(width - 1)
  }

  lemma {:induction false} NumberOfBigEndian(n: nat, width: nat)
    requires n < Power(width)
    ensures Number(BigEndian(n, width)) == n
  {
    if width > 0 {
      NumberOfBigEndian(n / 256, width - 1);
      var r := BigEndian(n, width);
      assert r[..width - 1] == BigEndian(n / 256, width - 1);
    }
  }

  // Which byte is which: the i-th of `width` counts multiples of 256^(width - 1 - i).
  lemma {:induction false} BigEndianByte(n: nat, width: nat, i: nat)
    requires i < width
    ensures Power(width - 1 - i) > 0 && BigEndian(n, width)[i] == n / Power(width - 1 - i) % 256
    decreases width
  {
    var r := BigEndian(n, width);
    if i == width - 1 {
      assert Power(0) == 1;
    } else {
      var p := Power(width - 2 - i);
      BigEndianByte(n / 256, width - 1, i);
      DivideTwice(n, p, Power(width - 1 - i));
      hide BigEndian, Power;
    }
  }

  lemma DivideTwice(n: nat, p: nat, product: nat)
    requires p > 0 && product == 256 * p
    ensures n / 256 / p == n / product
  {
    var q, r := n / 256 / p, n / 256 % p;
    assert n / 256 == p * q + r;
    assert product * q == 256 * (p * q);
    Multiple(product, n / product - q);
    assert n == product * (n / product) + n % product;
    assert product * (n / product - q) == product * (n / product) - product * q;
  }

  lemma Multiple(d: nat, k: int)
    ensures k >= 1 ==> d * k >= d
    ensures k <= -1 ==> d * k + d <= 0
  {
  }

  lemma {:induction false} BigEndianOfNumber(b: Bytes)
    ensures Number(b) < Power(|b|)
    ensures BigEndian(Number(b), |b|) == b
  {
    if b != [] { BigEndianOfNumber(b[..|b| - 1]); }
  }

  // ---------- Frames ----------

  // Eight bytes hold every length below 2^64, which no byte string in memory reaches.
  const LENGTH_LIMIT: nat := Power(8)

  function Frame(field: Bytes): (r: Bytes)
    ensures |r| == 8 + |field|
  {
    BigEndian(|field|, 8) + field
  }

  function Encode(parts: seq<Part>): Bytes
  {
    if parts == [] then [] else Frame(parts[0].name) + Frame(parts[0].payload) + Encode(parts[1..])
  }

  // What is fed for a list of parts: for each in turn the length of the label, the label, the
  // length of the payload and the payload, the lengths as eight digits to the base 256.
  lemma {:induction false} EncodeConcat(a: seq<Part>, p: Part, b: seq<Part>)
    ensures Encode(a + [p] + b)
         == Encode(a) + (BigEndian(|p.name|, 8) + p.name + (BigEndian(|p.payload|, 8) + p.payload)) + Encode(b)
    decreases |a|
  {
    hide BigEndian;
    if a == [] {
      assert (a + [p] + b)[1..] == b;
    } else {
      EncodeConcat(a[1..], p, b);
      assert (a + [p] + b)[0] == a[0] && (a + [p] + b)[1..] == a[1..] + [p] + b;
    }
  }

  ghost predicate Fits(parts: seq<Part>)
  {
    forall p :: p in parts ==> |p.name| < LENGTH_LIMIT && |p.payload| < LENGTH_LIMIT
  }

  datatype Taken = Taken(field: Bytes, rest: Bytes)

  function TakeFrame(b: Bytes): (t: Option<Taken>)
    ensures t.Some? ==> |t.value.rest| + 8 <= |b|
  {
    if |b| < 8 then None
    else
      var n := Number(b[..8]);
      if |b| - 8 < n then None else Some(Taken(b[8..8 + n], b[8 + n..]))
  }

  function Decode(b: Bytes): Option<seq<Part>>
    decreases |b|
  {
    if b == [] then Some([])
    else match TakeFrame(b) {
      case None => None
      case Some(first) =>
        match TakeFrame(first.rest) {
          case None => None
          case Some(payload) =>
            match Decode(payload.rest) {
              case None => None
              case Some(parts) => Some([Part(first.field, payload.field)] + parts)
            }
        }
    }
  }

  lemma TakeOfFrame(field: Bytes, rest: Bytes)
    requires |field| < LENGTH_LIMIT
    ensures TakeFrame(Frame(field) + rest) == Some(Taken(field, rest))
  {
    var b := Frame(field) + rest;
    assert b[..8] == BigEndian(|field|, 8);
    NumberOfBigEndian(|field|, 8);
    hide BigEndian, Number, Power;
    assert b[8..8 + |field|] == field && b[8 + |field|..] == rest;
  }

  lemma FrameOfTake(b: Bytes)
    requires TakeFrame(b).Some?
    ensures var t := TakeFrame(b).value; |t.field| < LENGTH_LIMIT && Frame(t.field) + t.rest == b
  {
    BigEndianOfNumber(b[..8]);
    hide BigEndian, Number, Power;
    assert b == b[..8] + b[8..];
  }

  // Every list of parts can be read back from its encoding ...
  lemma {:induction false} DecodeOfEncode(parts: seq<Part>)
    requires Fits(parts)
    ensures Decode(Encode(parts)) == Some(parts)
    decreases |parts|
  {
    hide BigEndian, Number, Power, TakeFrame, Frame;
    if parts != [] {
      var rest := Encode(parts[1..]);
      TakeOfFrame(parts[0].name, Frame(parts[0].payload) + rest);
      TakeOfFrame(parts[0].payload, rest);
      assert Encode(parts) == Frame(parts[0].name) + (Frame(parts[0].payload) + rest);
      DecodeOfEncode(parts[1..]);
      assert [parts[0]] + parts[1..] == parts;
    }
  }

  // ... and nothing but an encoding can be read.
  lemma {:induction false} EncodeOfDecode(b: Bytes)
    requires Decode(b).Some?
    ensures Fits(Decode(b).value) && Encode(Decode(b).value) == b
    decreases |b|
  {
    hide BigEndian, Number, Power, TakeFrame, Frame;
    if b != [] {
      var first := TakeFrame(b).value;
      var payload := TakeFrame(first.rest).value;
      FrameOfTake(b);
      FrameOfTake(first.rest);
      EncodeOfDecode(payload.rest);
      var parts := Decode(payload.rest).value;
      assert Decode(b).value[1..] == parts;
      assert Frame(first.field) + (Frame(payload.field) + Encode(parts))
          == Frame(first.field) + Frame(payload.field) + Encode(parts);
    }
  }

  // ---------- Label order ----------

  // Lexicographic order.
  predicate Precedes(a: Bytes, b: Bytes)
    decreases |a|
  {
    b != [] && (a == [] || a[0] < b[0] || (a[0] == b[0] && Precedes(a[1..], b[1..])))
  }

  // The first difference decides, and a label comes before what it begins.
  ghost predicate DiffersFirst(a: Bytes, b: Bytes, k: nat)
  {
    k <= |a| && k < |b| && a[..k] == b[..k] && (k == |a| || a[k] < b[k])
  }

  lemma {:induction false} PrecedesIff(a: Bytes, b: Bytes)
    ensures Precedes(a, b) <==> exists k: nat :: DiffersFirst(a, b, k)
    decreases |a|
  {
    if b != [] {
      if a == [] || a[0] < b[0] {
        assert DiffersFirst(a, b, 0);
      } else if a[0] == b[0] {
        PrecedesIff(a[1..], b[1..]);
        assert a == [a[0]] + a[1..] && b == [b[0]] + b[1..];
        if Precedes(a[1..], b[1..]) {
          var k: nat :| DiffersFirst(a[1..], b[1..], k);
          assert DiffersFirst(a, b, k + 1);
        }
        forall k: nat | DiffersFirst(a, b, k) ensures Precedes(a[1..], b[1..]) { DiffersLater(a, b, k); }
      } else {
        forall k: nat ensures !DiffersFirst(a, b, k) { if DiffersFirst(a, b, k) { DiffersLater(a, b, k); } }
      }
    }
  }

  lemma DiffersLater(a: Bytes, b: Bytes, k: nat)
    requires DiffersFirst(a, b, k) && a != []
    ensures if k == 0 then a[0] < b[0] else a[0] == b[0] && DiffersFirst(a[1..], b[1..], k - 1)
  {
    if k > 0 {
      assert a[..k][0] == b[..k][0];
      assert a[..k][1..] == a[1..][..k - 1] && b[..k][1..] == b[1..][..k - 1];
    }
  }

  lemma {:induction false} Trichotomy(a: Bytes, b: Bytes)
    ensures Precedes(a, b) || a == b || Precedes(b, a)
    ensures Precedes(a, b) ==> !Precedes(b, a) && a != b
    decreases |a|
  {
    if a != [] && b != [] {
      Trichotomy(a[1..], b[1..]);
      assert a == [a[0]] + a[1..] && b == [b[0]] + b[1..];
    }
  }

  lemma {:induction false} PrecedesIsTransitive(a: Bytes, b: Bytes, c: Bytes)
    requires Precedes(a, b) && Precedes(b, c)
    ensures Precedes(a, c)
    decreases |a|
  {
    if a != [] && a[0] == b[0] == c[0] { PrecedesIsTransitive(a[1..], b[1..], c[1..]); }
  }

  function Insert(p: Part, sorted: seq<Part>): seq<Part>
  {
    if sorted == [] || !Precedes(sorted[0].name, p.name) then [p] + sorted
    else [sorted[0]] + Insert(p, sorted[1..])
  }

  // A stable sort by label.
  function SortParts(parts: seq<Part>): seq<Part>
  {
    if parts == [] then [] else Insert(parts[0], SortParts(parts[1..]))
  }

  ghost predicate Ascending(parts: seq<Part>)
  {
    forall i, j :: 0 <= i < j < |parts| ==> Precedes(parts[i].name, parts[j].name)
  }

  ghost predicate DistinctLabels(parts: seq<Part>)
  {
    forall i, j :: 0 <= i < j < |parts| ==> parts[i].name != parts[j].name
  }

  lemma {:induction false} InsertPermutes(p: Part, sorted: seq<Part>)
    ensures multiset(Insert(p, sorted)) == multiset(sorted) + multiset{p}
    decreases |sorted|
  {
    hide Precedes;
    if sorted != [] {
      InsertPermutes(p, sorted[1..]);
      assert sorted == [sorted[0]] + sorted[1..];
    }
  }

  lemma {:induction false} InsertKeepsAscending(p: Part, sorted: seq<Part>)
    requires Ascending(sorted) && forall q :: q in sorted ==> q.name != p.name
    ensures Ascending(Insert(p, sorted))
    decreases |sorted|
  {
    hide Precedes;
    if sorted != [] {
      Trichotomy(sorted[0].name, p.name);
      if Precedes(sorted[0].name, p.name) {
        InsertKeepsAscending(p, sorted[1..]);
        var rest := Insert(p, sorted[1..]);
        InsertPermutes(p, sorted[1..]);
        forall j | 0 <= j < |rest| ensures Precedes(sorted[0].name, rest[j].name) {
          assert rest[j] in multiset(rest);
        }
      } else {
        forall j | 0 < j < |sorted| ensures Precedes(p.name, sorted[j].name) {
          PrecedesIsTransitive(p.name, sorted[0].name, sorted[j].name);
        }
      }
    }
  }

  lemma {:induction false} SortSorts(parts: seq<Part>)
    requires DistinctLabels(parts)
    ensures Ascending(SortParts(parts)) && multiset(SortParts(parts)) == multiset(parts)
    decreases |parts|
  {
    if parts != [] {
      SortSorts(parts[1..]);
      assert parts == [parts[0]] + parts[1..];
      forall q | q in SortParts(parts[1..]) ensures q.name != parts[0].name {
        assert q in multiset(parts[1..]);
      }
      InsertKeepsAscending(parts[0], SortParts(parts[1..]));
      InsertPermutes(parts[0], SortParts(parts[1..]));
    }
  }

  lemma {:induction false} AscendingIsUnique(s: seq<Part>, t: seq<Part>)
    requires Ascending(s) && Ascending(t) && forall p :: p in s <==> p in t
    ensures s == t
    decreases |s|
  {
    hide Precedes;
    EmptyTogether(s, t);
    if s != [] {
      SameLeast(s, t);
      assert s == [s[0]] + s[1..] && t == [t[0]] + t[1..];
      forall p ensures p in s[1..] <==> p in t[1..] {
        Trichotomy(s[0].name, s[0].name);
        assert p in s[1..] ==> p in s && p != s[0];
        assert p in t[1..] ==> p in t && p != t[0];
      }
      AscendingIsUnique(s[1..], t[1..]);
    }
  }

  lemma EmptyTogether(s: seq<Part>, t: seq<Part>)
    requires forall p :: p in s <==> p in t
    ensures s == [] <==> t == []
  {
    if s != [] { assert s[0] in t; }
    if t != [] { assert t[0] in s; }
  }

  lemma SameLeast(s: seq<Part>, t: seq<Part>)
    requires Ascending(s) && Ascending(t) && s != [] && t != []
    requires s[0] in t && t[0] in s
    ensures s[0] == t[0]
  {
    hide Precedes;
    if s[0] != t[0] {
      Trichotomy(s[0].name, t[0].name);
    }
  }

  // ---------- The hash input ----------

  function Contents(parts: seq<Part>): map<Bytes, Bytes>
    requires DistinctLabels(parts)
  {
    map p | p in parts :: p.name := p.payload
  }

  // The parts as the digest is fed with them.
  method HashInput(parts: seq<Part>) returns (fed: Option<Bytes>)
    requires Fits(parts)
    ensures fed == if parts == [] then None else Some(Encode(SortParts(parts)))
  {
    hide Insert, Frame, Precedes;
    if parts == [] {
      return None;
    }
    var ordered := SortParts(parts);
    var digest: Bytes := [];
    for i := 0 to |ordered|
      invariant digest + Encode(ordered[i..]) == Encode(ordered)
    {
      assert ordered[i..][1..] == ordered[i + 1..];
      Append(digest, Frame(ordered[i].name), Frame(ordered[i].payload), Encode(ordered[i + 1..]));
      digest := digest + Frame(ordered[i].name);
      digest := digest + Frame(ordered[i].payload);
    }
    assert digest + Encode([]) == digest;
    fed := Some(digest);
  }

  lemma Append(digest: Bytes, a: Bytes, b: Bytes, rest: Bytes)
    ensures digest + (a + b + rest) == digest + a + b + rest
  {
  }

  // Two inputs hash alike exactly when they give the same payload to the same labels, in
  // whatever order they were collected.
  lemma HashInputIsInjective(p: seq<Part>, q: seq<Part>)
    requires DistinctLabels(p) && DistinctLabels(q) && Fits(p) && Fits(q)
    ensures Encode(SortParts(p)) == Encode(SortParts(q)) <==> Contents(p) == Contents(q)
  {
    hide Encode, SortParts, Decode, Precedes;
    SortSorts(p);
    SortSorts(q);
    SameMembers(SortParts(p), p);
    SameMembers(SortParts(q), q);
    DecodeOfEncode(SortParts(p));
    DecodeOfEncode(SortParts(q));
    ContentsAreMembers(p, q);
    if Contents(p) == Contents(q) {
      AscendingIsUnique(SortParts(p), SortParts(q));
    }
  }

  lemma SameMembers(s: seq<Part>, t: seq<Part>)
    requires multiset(s) == multiset(t)
    ensures forall p :: p in s <==> p in t
    ensures Fits(s) <==> Fits(t)
  {
    forall p ensures p in s <==> p in t {
      assert p in s <==> p in multiset(s);
      assert p in t <==> p in multiset(t);
    }
  }

  lemma ContentsAreMembers(p: seq<Part>, q: seq<Part>)
    requires DistinctLabels(p) && DistinctLabels(q)
    ensures Contents(p) == Contents(q) <==> forall x :: x in p <==> x in q
  {
    MemberOfContents(p);
    MemberOfContents(q);
    if forall x :: x in p <==> x in q {
      assert Contents(p).Keys == Contents(q).Keys;
    }
  }

  lemma MemberOfContents(p: seq<Part>)
    requires DistinctLabels(p)
    ensures forall x: Part :: x in p <==> x.name in Contents(p) && Contents(p)[x.name] == x.payload
  {
  }
}
