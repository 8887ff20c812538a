/**
  What daily learning hashes when it acquires its evidence, what it stores of it in the
  frozen snapshot, and what it hashes again when the snapshot is read back.
 */
module LearningInputs {
  import opened Wrappers
  import opened Framing

  datatype Json = Atom(text: string) | Array(items: seq<Json>) | Object(fields: seq<Field>)
  datatype Field = Field(key: string, value: Json)

  // A batch of rows; a loader may attach diagnostics about the rows it turned away.
  datatype Batch = Batch(rows: seq<Json>, diagnostics: Option<Diagnostics>)
  datatype Diagnostics = Diagnostics(identities: seq<Json>, reasons: Json,
                                     selections: Option<Json>, contributors: Option<Json>)

  // Rows of the paper ledger, with the three readings of the hash of its input files: the
  // one the rows declare, the one that is stored, and the one taken while hashing.
  datatype Paper = Paper(batch: Batch, declared: Bytes, stored: Bytes, rehashed: Bytes)

  datatype Inputs =
    | Database(portfolio: Batch, paper: Option<Paper>, receipts: Option<Batch>, v6: Option<Batch>,
               outcomes: Option<Batch>)
    | EvidenceFile(payload: Json, listed: Option<seq<Json>>)

  // The `input_components` of a snapshot.
  datatype Components = Components(portfolio: Option<Json>, paperRows: Option<Json>, paperHash: Option<Bytes>,
                                   evidence: Option<Json>, receipts: Option<Json>, v6: Option<Json>,
                                   outcomes: Option<Json>)

  // ---------- Canonical form ----------

  function Count(key: string, count: Option<Json>): seq<Field>
  {
    match count case None => [] case Some(n) => [Field(key, n)]
  }

  // A batch as an object, keys in order; absent diagnostics read as empty ones.
  function Identity(b: Batch): Json
  {
    var d := match b.diagnostics
             case None => Diagnostics([], Object([]), None, None)
             case Some(given) => given;
    Object([Field("accepted", Array(b.rows))]
           + Count("expected_contributor_count", d.contributors)
           + Count("expected_selection_count", d.selections)
           + [Field("invalid_identities", Array(d.identities)), Field("invalid_reasons", d.reasons)])
  }

  // What is written out to be hashed: the diagnostics count if there are any.
  function Canonical(b: Batch): Json
  {
    if b.diagnostics.Some? then Identity(b) else Array(b.rows)
  }

  // ---------- Parts ----------

  // The labels are plain ASCII.
  function Ascii(s: string): (r: Bytes)
    ensures |r| == |s|
  {
    seq(|s|, i requires 0 <= i < |s| => s[i] as int % 128)
  }

  // The seven labels, in the order both hashers go through them.
  const NAMES: seq<Bytes> := [
    Ascii("portfolio_performance_rows"), Ascii("paper_ops_lifecycle_rows"), Ascii("paper_ops_materializer_inputs"),
    Ascii("evidence_payload"), Ascii("strategy_decision_receipts"), Ascii("alpha_v6_decisions"),
    Ascii("research_episode_outcomes")]

  // The parts that are there, under their labels.
  function Filled(names: seq<Bytes>, payloads: seq<Option<Bytes>>): (parts: seq<Part>)
    requires |names| == |payloads|
    ensures forall p :: p in parts ==> p.name in names
    decreases |names|
  {
    if names == [] then []
    else
      var rest := Filled(names[1..], payloads[1..]);
      if payloads[0].Some? then [Part(names[0], payloads[0].value)] + rest else rest
  }

  function Written(json: Json -> Bytes, value: Option<Json>): Option<Bytes>
  {
    match value case None => None case Some(v) => Some(json(v))
  }

  function CanonicalOf(b: Option<Batch>): Option<Json>
  {
    match b case None => None case Some(batch) => Some(Canonical(batch))
  }

  function IdentityOf(b: Option<Batch>): Option<Json>
  {
    match b case None => None case Some(batch) => Some(Identity(batch))
  }

  function Listed(rows: Option<seq<Json>>): Option<Json>
  {
    match rows case None => None case Some(items) => Some(Array(items))
  }

  // The payloads hashed at acquisition.
  function HashedPayloads(inputs: Inputs, json: Json -> Bytes): (r: seq<Option<Bytes>>)
    ensures |r| == 7
  {
    match inputs
    case Database(portfolio, paper, receipts, v6, outcomes) =>
      [Some(json(Canonical(portfolio))),
       if paper.Some? then Some(json(Canonical(paper.value.batch))) else None,
       if paper.Some? then Some(paper.value.rehashed) else None,
       None, Written(json, CanonicalOf(receipts)), Written(json, CanonicalOf(v6)),
       Written(json, CanonicalOf(outcomes))]
    case EvidenceFile(payload, listed) =>
      [None, None, None, Some(json(payload)), Written(json, Listed(listed)), None, None]
  }

  // The components stored with the snapshot.
  function Freeze(inputs: Inputs): Components
  {
    match inputs
    case Database(portfolio, paper, receipts, v6, outcomes) =>
      Components(Some(Array(portfolio.rows)),
                 if paper.Some? then Some(Array(paper.value.batch.rows)) else None,
                 if paper.Some? then Some(paper.value.stored) else None,
                 None, IdentityOf(receipts), IdentityOf(v6), IdentityOf(outcomes))
    case EvidenceFile(payload, listed) =>
      Components(None, None, None, Some(payload), Listed(listed), None, None)
  }

  // The payloads hashed when the snapshot is read: an empty paper hash counts as none.
  function FrozenPayloads(c: Components, json: Json -> Bytes): (r: seq<Option<Bytes>>)
    ensures |r| == 7
  {
    [Written(json, c.portfolio), Written(json, c.paperRows),
     if c.paperHash == Some([]) then None else c.paperHash,
     Written(json, c.evidence), Written(json, c.receipts), Written(json, c.v6), Written(json, c.outcomes)]
  }

  function HashedParts(inputs: Inputs, json: Json -> Bytes): seq<Part>
  {
    Filled(NAMES, HashedPayloads(inputs, json))
  }

  function FrozenParts(c: Components, json: Json -> Bytes): seq<Part>
  {
    Filled(NAMES, FrozenPayloads(c, json))
  }

  // Acquisition refuses rows whose declared hash is not the one just taken, and hashing
  // refuses a nonempty declaration that the files no longer meet. A digest is never empty.
  predicate Acquired(inputs: Inputs)
  {
    inputs.Database? && inputs.paper.Some? ==>
      var p := inputs.paper.value;
      p.stored != [] && p.declared == p.stored && (p.declared != [] ==> p.declared == p.rehashed)
  }

  // ---------- Recomputation ----------

  // A list is never written like an object. Objects may be written alike, as those with the
  // same fields in another order are.
  ghost predicate TellsKinds(json: Json -> Bytes)
  {
    forall xs, fs :: json(Array(xs)) != json(Object(fs))
  }

  predicate Diagnosed(b: Option<Batch>)
  {
    b.Some? ==> b.value.diagnostics.Some?
  }

  // Ledger rows without diagnostics, decision batches with them.
  predicate KeepsForm(inputs: Inputs)
  {
    inputs.Database? ==>
      && inputs.portfolio.diagnostics.None?
      && (inputs.paper.Some? ==> inputs.paper.value.batch.diagnostics.None?)
      && Diagnosed(inputs.receipts) && Diagnosed(inputs.v6) && Diagnosed(inputs.outcomes)
  }

  ghost predicate Different(names: seq<Bytes>)
  {
    forall i, j :: 0 <= i < j < |names| ==> names[i] != names[j]
  }

  // Only two of the labels have the same length.
  lemma NamesDiffer()
    ensures |NAMES| == 7 && Different(NAMES)
  {
    assert NAMES[0][0] == 'p' as int % 128;
    assert NAMES[4][0] == 's' as int % 128;
    hide Ascii;
  }

  lemma {:induction false} FilledIsDistinct(names: seq<Bytes>, payloads: seq<Option<Bytes>>)
    requires |names| == |payloads| && Different(names)
    ensures DistinctLabels(Filled(names, payloads))
    decreases |names|
  {
    if names != [] {
      FilledIsDistinct(names[1..], payloads[1..]);
      assert forall name :: name in names[1..] ==> name != names[0];
    }
  }

  ghost predicate SameParts(p: seq<Part>, q: seq<Part>)
  {
    forall x :: x in p <==> x in q
  }

  // Payload lists that fill the same slots hold the same parts only if they are equal.
  lemma {:induction false} FilledContents(names: seq<Bytes>, p: seq<Option<Bytes>>, q: seq<Option<Bytes>>)
    requires |names| == |p| == |q| && Different(names)
    requires forall i :: 0 <= i < |p| ==> p[i].Some? == q[i].Some?
    requires SameParts(Filled(names, p), Filled(names, q))
    ensures p == q
    decreases |names|
  {
    hide Filled;
    if names != [] {
      var names', p', q' := names[1..], p[1..], q[1..];
      HeadsAgree(names, p, q);
      forall x ensures x in Filled(names', p') <==> x in Filled(names', q') {
        FilledTail(names, p, x);
        FilledTail(names, q, x);
      }
      FilledContents(names', p', q');
      assert p == [p[0]] + p' && q == [q[0]] + q';
    }
  }

  lemma FilledTail(names: seq<Bytes>, p: seq<Option<Bytes>>, x: Part)
    requires |names| == |p| && names != [] && Different(names)
    ensures x in Filled(names[1..], p[1..]) <==> x in Filled(names, p) && x.name != names[0]
  {
    assert names[0] !in names[1..];
  }

  lemma HeadsAgree(names: seq<Bytes>, p: seq<Option<Bytes>>, q: seq<Option<Bytes>>)
    requires |names| == |p| == |q| && names != [] && Different(names)
    requires p[0].Some? == q[0].Some? && SameParts(Filled(names, p), Filled(names, q))
    ensures p[0] == q[0]
  {
    if p[0].Some? {
      var x := Part(names[0], p[0].value);
      assert x in Filled(names, p);
      assert forall y :: y in Filled(names[1..], q[1..]) ==> y.name in names[1..];
      assert names[0] !in names[1..];
    }
  }

  // A part is there exactly if its slot is filled with its payload.
  lemma {:induction false} FilledSlot(names: seq<Bytes>, p: seq<Option<Bytes>>, i: nat, payload: Bytes)
    requires |names| == |p| && i < |names| && Different(names)
    ensures Part(names[i], payload) in Filled(names, p) <==> p[i] == Some(payload)
    decreases |names|
  {
    if i > 0 {
      FilledSlot(names[1..], p[1..], i - 1, payload);
      FilledTail(names, p, Part(names[i], payload));
    } else {
      assert names[0] !in names[1..];
    }
  }

  function OrNone(json: Json -> Bytes, b: Option<Batch>): Option<Bytes>
  {
    match b case None => None case Some(batch) => Some(json(if batch.diagnostics.None? then Array(batch.rows) else Identity(batch)))
  }

  // What is hashed under which label when the database is the source: the rows as they are,
  // or with their diagnostics where there are any, and the hash of the ledger files.
  lemma DatabaseLabels(inputs: Inputs, json: Json -> Bytes, x: Bytes)
    requires inputs.Database?
    ensures var parts := HashedParts(inputs, json);
            && (Part(Ascii("portfolio_performance_rows"), x) in parts <==> Some(x) == OrNone(json, Some(inputs.portfolio)))
            && (Part(Ascii("paper_ops_lifecycle_rows"), x) in parts <==>
                  inputs.paper.Some? && Some(x) == OrNone(json, Some(inputs.paper.value.batch)))
            && (Part(Ascii("paper_ops_materializer_inputs"), x) in parts <==> inputs.paper.Some? && x == inputs.paper.value.rehashed)
            && Part(Ascii("evidence_payload"), x) !in parts
            && (Part(Ascii("strategy_decision_receipts"), x) in parts <==> Some(x) == OrNone(json, inputs.receipts))
            && (Part(Ascii("alpha_v6_decisions"), x) in parts <==> Some(x) == OrNone(json, inputs.v6))
            && (Part(Ascii("research_episode_outcomes"), x) in parts <==> Some(x) == OrNone(json, inputs.outcomes))
  {
    DatabaseSlots(inputs, json);
    hide HashedPayloads, Filled, Ascii, OrNone;
    AllSlots(HashedPayloads(inputs, json), x);
  }

  lemma DatabaseSlots(inputs: Inputs, json: Json -> Bytes)
    requires inputs.Database?
    ensures HashedPayloads(inputs, json) ==
      [OrNone(json, Some(inputs.portfolio)),
       if inputs.paper.Some? then OrNone(json, Some(inputs.paper.value.batch)) else None,
       if inputs.paper.Some? then Some(inputs.paper.value.rehashed) else None,
       None, OrNone(json, inputs.receipts), OrNone(json, inputs.v6), OrNone(json, inputs.outcomes)]
  {
    hide Identity;
  }

  // And with an evidence file: its payload, the receipts it lists, and nothing else.
  lemma EvidenceLabels(inputs: Inputs, json: Json -> Bytes, x: Bytes)
    requires inputs.EvidenceFile?
    ensures var parts := HashedParts(inputs, json);
            && (Part(Ascii("evidence_payload"), x) in parts <==> x == json(inputs.payload))
            && (Part(Ascii("strategy_decision_receipts"), x) in parts <==>
                  inputs.listed.Some? && x == json(Array(inputs.listed.value)))
            && Part(Ascii("portfolio_performance_rows"), x) !in parts && Part(Ascii("paper_ops_lifecycle_rows"), x) !in parts
            && Part(Ascii("paper_ops_materializer_inputs"), x) !in parts && Part(Ascii("alpha_v6_decisions"), x) !in parts
            && Part(Ascii("research_episode_outcomes"), x) !in parts
  {
    EvidenceSlots(inputs, json);
    hide HashedPayloads, Filled, Ascii;
    AllSlots(HashedPayloads(inputs, json), x);
  }

  lemma EvidenceSlots(inputs: Inputs, json: Json -> Bytes)
    requires inputs.EvidenceFile?
    ensures HashedPayloads(inputs, json) ==
      [None, None, None, Some(json(inputs.payload)),
       if inputs.listed.Some? then Some(json(Array(inputs.listed.value))) else None, None, None]
  {
  }

  // What is hashed again for the components of a snapshot; an empty ledger hash is left out.
  lemma FrozenLabels(c: Components, json: Json -> Bytes, x: Bytes)
    ensures var parts := FrozenParts(c, json);
            && (Part(Ascii("portfolio_performance_rows"), x) in parts <==> c.portfolio.Some? && x == json(c.portfolio.value))
            && (Part(Ascii("paper_ops_lifecycle_rows"), x) in parts <==> c.paperRows.Some? && x == json(c.paperRows.value))
            && (Part(Ascii("paper_ops_materializer_inputs"), x) in parts <==> c.paperHash == Some(x) && x != [])
            && (Part(Ascii("evidence_payload"), x) in parts <==> c.evidence.Some? && x == json(c.evidence.value))
            && (Part(Ascii("strategy_decision_receipts"), x) in parts <==> c.receipts.Some? && x == json(c.receipts.value))
            && (Part(Ascii("alpha_v6_decisions"), x) in parts <==> c.v6.Some? && x == json(c.v6.value))
            && (Part(Ascii("research_episode_outcomes"), x) in parts <==> c.outcomes.Some? && x == json(c.outcomes.value))
  {
    hide Filled, Ascii;
    AllSlots(FrozenPayloads(c, json), x);
  }

  lemma AllSlots(p: seq<Option<Bytes>>, x: Bytes)
    requires |p| == 7
    ensures var parts := Filled(NAMES, p);
            && (Part(Ascii("portfolio_performance_rows"), x) in parts <==> p[0] == Some(x))
            && (Part(Ascii("paper_ops_lifecycle_rows"), x) in parts <==> p[1] == Some(x))
            && (Part(Ascii("paper_ops_materializer_inputs"), x) in parts <==> p[2] == Some(x))
            && (Part(Ascii("evidence_payload"), x) in parts <==> p[3] == Some(x))
            && (Part(Ascii("strategy_decision_receipts"), x) in parts <==> p[4] == Some(x))
            && (Part(Ascii("alpha_v6_decisions"), x) in parts <==> p[5] == Some(x))
            && (Part(Ascii("research_episode_outcomes"), x) in parts <==> p[6] == Some(x))
  {
    NamesDiffer();
    hide Filled, Ascii;
    FilledSlot(NAMES, p, 0, x);
    FilledSlot(NAMES, p, 1, x);
    FilledSlot(NAMES, p, 2, x);
    FilledSlot(NAMES, p, 3, x);
    FilledSlot(NAMES, p, 4, x);
    FilledSlot(NAMES, p, 5, x);
    FilledSlot(NAMES, p, 6, x);
  }

  // Both readings of a batch are written alike exactly when it has diagnostics.
  lemma ReadingsOf(json: Json -> Bytes, b: Option<Batch>)
    requires TellsKinds(json)
    ensures Written(json, CanonicalOf(b)) == Written(json, IdentityOf(b)) <==> Diagnosed(b)
    ensures CanonicalOf(b).Some? == IdentityOf(b).Some? == b.Some?
  {
    if b.Some? { PlainReading(json, b.value); }
  }

  lemma PlainReading(json: Json -> Bytes, b: Batch)
    requires TellsKinds(json)
    ensures json(Canonical(b)) == json(Array(b.rows)) <==> b.diagnostics.None?
    ensures json(Identity(b)) != json(Array(b.rows))
  {
    var fields := Identity(b).fields;
    assert Identity(b) == Object(fields);
  }

  lemma PayloadsAgree(inputs: Inputs, json: Json -> Bytes)
    requires TellsKinds(json) && Acquired(inputs)
    ensures var p, q := HashedPayloads(inputs, json), FrozenPayloads(Freeze(inputs), json);
            && (forall i :: 0 <= i < 7 ==> p[i].Some? == q[i].Some?)
            && (p == q <==> KeepsForm(inputs))
  {
    if inputs.Database? {
      hide TellsKinds, Canonical, CanonicalOf, IdentityOf, Diagnosed;
      ReadingsOf(json, inputs.receipts);
      ReadingsOf(json, inputs.v6);
      ReadingsOf(json, inputs.outcomes);
      PlainReading(json, inputs.portfolio);
      if inputs.paper.Some? { PlainReading(json, inputs.paper.value.batch); }
    }
  }

  // The hash of the frozen components is the hash signed at acquisition exactly when the
  // stored components keep the form in which the inputs were hashed.
  lemma RecomputationAgrees(inputs: Inputs, json: Json -> Bytes)
    requires TellsKinds(json) && Acquired(inputs)
    requires Fits(HashedParts(inputs, json)) && Fits(FrozenParts(Freeze(inputs), json))
    ensures Encode(SortParts(HashedParts(inputs, json))) == Encode(SortParts(FrozenParts(Freeze(inputs), json)))
        <==> KeepsForm(inputs)
  {
    hide Filled, HashedPayloads, FrozenPayloads, Freeze, KeepsForm, Acquired, TellsKinds, Encode, SortParts,
      DistinctLabels, Different, Fits, Contents;
    var p, q := HashedPayloads(inputs, json), FrozenPayloads(Freeze(inputs), json);
    NamesDiffer();
    FilledIsDistinct(NAMES, p);
    FilledIsDistinct(NAMES, q);
    HashInputIsInjective(Filled(NAMES, p), Filled(NAMES, q));
    ContentsAreMembers(Filled(NAMES, p), Filled(NAMES, q));
    PayloadsAgree(inputs, json);
    if SameParts(Filled(NAMES, p), Filled(NAMES, q)) { FilledContents(NAMES, p, q); }
  }
}
