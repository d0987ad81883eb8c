/**
 * The embedding worker: it polls for concepts whose vector is missing or
 * stale, has an endpoint embed their text, and stores each vector only if the
 * concept is still the one it read.
 */
module Embedding {
  import opened Text
  import Decimal

  type Vector = seq<real>

  datatype Id = Id(bundle: int, concept: string)
  datatype Concept = Concept(title: Option<string>, description: Option<string>, body: string, fileHash: string)

  /** A stored vector; rows written before provenance was kept have none. */
  datatype Row = Row(
    vector: Vector,
    dim: nat,
    sourceHash: Option<string>,
    model: Option<string>,
    contract: Option<string>)

  datatype Policy = Policy(dim: nat, model: string, contract: string)

  // ----- What is embedded, and under which contract -----

  function Sections(c: Concept): seq<string> {
    (if c.title.Some? && c.title.value != "" then [c.title.value] else [])
    + (if c.description.Some? && c.description.value != "" then [c.description.value] else [])
    + (if c.body != "" then [c.body] else [])
  }

  function BlankLineJoin(sections: seq<string>): string {
    if sections == [] then ""
    else if |sections| == 1 then sections[0]
    else sections[0] + "\n\n" + BlankLineJoin(sections[1..])
  }

  function EmbeddingInput(c: Concept, maxChars: nat): (input: string)
    ensures |input| <= maxChars
  {
    var joined := BlankLineJoin(Sections(c));
    if |joined| <= maxChars then joined else joined[..maxChars]
  }

  function RenderContract(maxChars: nat): string {
    "pgokf-embed/v1/max-chars:" + Decimal.Digits(maxChars)
  }

  /** A contract names one input bound. */
  lemma RenderContractIsInjective(a: nat, b: nat)
    requires RenderContract(a) == RenderContract(b)
    ensures a == b
  {
    assert RenderContract(a)[25..] == Decimal.Digits(a);
    assert RenderContract(b)[25..] == Decimal.Digits(b);
    Decimal.DigitsInjective(a, b);
  }

  /** The predicate of the polling query, for a concept and its row if it has one. */
  predicate Pending(policy: Policy, c: Concept, row: Option<Row>) {
    || row.None?
    || row.value.sourceHash.None? || row.value.model.None? || row.value.contract.None?
    || row.value.sourceHash != Some(c.fileHash)
    || row.value.dim != policy.dim
    || (policy.model != "" && row.value.model != Some(policy.model))
    || (policy.contract != "" && row.value.contract != Some(policy.contract))
  }

  function RowOf(rows: map<Id, Row>, id: Id): Option<Row> {
    if id in rows then Some(rows[id]) else None
  }

  // ----- Edits and workers, interleaved -----

  /** A worker's settings and what it has polled and not yet stored. */
  datatype Worker = Worker(model: string, maxChars: nat, polled: map<Id, Concept>)

  datatype State = State(
    policy: Policy,
    concepts: map<Id, Concept>,
    rows: map<Id, Row>,
    workers: map<nat, Worker>)

  datatype Step =
    | Edit(id: Id, concept: Concept)
    | Remove(id: Id)
    | SetPolicy(policy: Policy)
    | StoreLegacy(id: Id, vector: Vector)
    | Poll(w: nat, id: Id)
    | StoreVector(w: nat, id: Id)

  /**
   * `fileOf` reads a concept back from its id, which has its file name, and its
   * file hash, which a collision-free digest allows; `embed` is what the endpoint computes for a model and a text.
   */
  predicate Enabled(s: State, step: Step, fileOf: (Id, string) -> Concept) {
    match step
    case Edit(id, concept) => concept == fileOf(id, concept.fileHash)
    case Remove(id) => id in s.concepts
    case SetPolicy(_) => true
    case StoreLegacy(id, _) => id in s.concepts
    case Poll(w, id) => w in s.workers && id in s.concepts && Pending(s.policy, s.concepts[id], RowOf(s.rows, id))
    case StoreVector(w, id) => w in s.workers && id in s.workers[w].polled
  }

  /** `set_concept_embedding_cas`: stored only if the length fits and the hash is still the polled one. */
  function Stored(s: State, id: Id, polled: Concept, vector: Vector, model: string, contract: string): State {
    if |vector| == s.policy.dim && id in s.concepts && s.concepts[id].fileHash == polled.fileHash
    then s.(rows := s.rows[id := Row(vector, |vector|, Some(polled.fileHash), Some(model), Some(contract))])
    else s
  }

  function Next(s: State, step: Step, fileOf: (Id, string) -> Concept, embed: (string, string) -> Vector): State
    requires Enabled(s, step, fileOf)
  {
    match step
    case Edit(id, concept) => s.(concepts := s.concepts[id := concept], rows := s.rows - {id})
    case Remove(id) => s.(concepts := s.concepts - {id}, rows := s.rows - {id})
    case SetPolicy(policy) => s.(policy := policy)
    case StoreLegacy(id, vector) => s.(rows := s.rows[id := Row(vector, |vector|, None, None, None)])
    case Poll(w, id) =>
      var worker := s.workers[w];
      s.(workers := s.workers[w := worker.(polled := worker.polled[id := s.concepts[id]])])
    case StoreVector(w, id) =>
      var worker := s.workers[w];
      var polled := worker.polled[id];
      var vector := embed(worker.model, EmbeddingInput(polled, worker.maxChars));
      Stored(s.(workers := s.workers[w := worker.(polled := worker.polled - {id})]),
             id, polled, vector, worker.model, RenderContract(worker.maxChars))
  }

  predicate IsRun(s: State, run: seq<Step>, fileOf: (Id, string) -> Concept, embed: (string, string) -> Vector)
    decreases |run|
  {
    run == [] || (Enabled(s, run[0], fileOf) && IsRun(Next(s, run[0], fileOf, embed), run[1..], fileOf, embed))
  }

  function After(s: State, run: seq<Step>, fileOf: (Id, string) -> Concept, embed: (string, string) -> Vector): State
    requires IsRun(s, run, fileOf, embed)
    decreases |run|
  {
    if run == [] then s else After(Next(s, run[0], fileOf, embed), run[1..], fileOf, embed)
  }

  /** The row was computed, under the model and contract it names, from the file it names. */
  ghost predicate Honest(id: Id, row: Row, fileOf: (Id, string) -> Concept, embed: (string, string) -> Vector) {
    row.sourceHash.Some? && row.model.Some? && row.contract.Some? ==>
      && row.dim == |row.vector|
      && exists k: nat :: row.contract.value == RenderContract(k)
                          && row.vector == embed(row.model.value, EmbeddingInput(fileOf(id, row.sourceHash.value), k))
  }

  ghost predicate Valid(s: State, fileOf: (Id, string) -> Concept, embed: (string, string) -> Vector) {
    && (forall id :: id in s.concepts ==> s.concepts[id] == fileOf(id, s.concepts[id].fileHash))
    && (forall id :: id in s.rows ==> Honest(id, s.rows[id], fileOf, embed))
    && (forall w, id :: w in s.workers && id in s.workers[w].polled ==>
          s.workers[w].polled[id] == fileOf(id, s.workers[w].polled[id].fileHash))
  }

  lemma StepKeepsValid(s: State, step: Step, fileOf: (Id, string) -> Concept, embed: (string, string) -> Vector)
    requires Valid(s, fileOf, embed) && Enabled(s, step, fileOf)
    ensures Valid(Next(s, step, fileOf, embed), fileOf, embed)
  {
    hide RenderContract, EmbeddingInput;
    if step.StoreVector? {
      var worker := s.workers[step.w];
      var polled := worker.polled[step.id];
      var vector := embed(worker.model, EmbeddingInput(polled, worker.maxChars));
      assert Honest(step.id, Row(vector, |vector|, Some(polled.fileHash), Some(worker.model), Some(RenderContract(worker.maxChars))),
                    fileOf, embed);
    }
  }

  lemma {:induction false} RunKeepsValid(s: State, run: seq<Step>, fileOf: (Id, string) -> Concept,
                                         embed: (string, string) -> Vector)
    requires Valid(s, fileOf, embed) && IsRun(s, run, fileOf, embed)
    ensures Valid(After(s, run, fileOf, embed), fileOf, embed)
    decreases |run|
  {
    hide Valid, Enabled, Next;
    if run != [] {
      StepKeepsValid(s, run[0], fileOf, embed);
      RunKeepsValid(Next(s, run[0], fileOf, embed), run[1..], fileOf, embed);
    }
  }

  /**
   * However edits and workers interleave, a row that is not pending holds the
   * vector of its concept's current text: embedded by the model and under the
   * one input bound the row names, of the policy's dimension and pins.
   */
  lemma CurrentRowsMatchCurrentText(s: State, run: seq<Step>, fileOf: (Id, string) -> Concept,
                                    embed: (string, string) -> Vector, id: Id)
    requires Valid(s, fileOf, embed) && IsRun(s, run, fileOf, embed)
    requires var t := After(s, run, fileOf, embed);
             id in t.concepts && !Pending(t.policy, t.concepts[id], RowOf(t.rows, id))
    ensures var t := After(s, run, fileOf, embed);
            && id in t.rows
            && var row := t.rows[id];
               && row.model.Some? && row.contract.Some? && |row.vector| == t.policy.dim
               && (t.policy.model != "" ==> row.model.value == t.policy.model)
               && (t.policy.contract != "" ==> row.contract.value == t.policy.contract)
               && exists k: nat ::
                    && row.contract.value == RenderContract(k)
                    && row.vector == embed(row.model.value, EmbeddingInput(t.concepts[id], k))
  {
    RunKeepsValid(s, run, fileOf, embed);
    hide RenderContract, EmbeddingInput, IsRun, After;
  }

  // ----- Putting a response back in order -----

  datatype Datum = Datum(index: nat, embedding: Vector)

  datatype OrderError = WrongCount | OutOfRange(at: nat) | Duplicate(at: nat) | Missing(at: nat)
  datatype Ordered = InOrder(vectors: seq<Vector>) | Disordered(error: OrderError)

  /** Every input has exactly one entry. */
  ghost predicate IsPermutation(data: seq<Datum>, expected: nat) {
    && |data| == expected
    && (forall k :: 0 <= k < |data| ==> data[k].index < expected)
    && (forall k, l :: 0 <= k < l < |data| ==> data[k].index != data[l].index)
  }

  function Indices(data: seq<Datum>): set<nat> {
    set k | 0 <= k < |data| :: data[k].index
  }

  lemma {:induction false} DistinctIndices(data: seq<Datum>)
    requires forall k, l :: 0 <= k < l < |data| ==> data[k].index != data[l].index
    ensures |Indices(data)| == |data|
  {
    if data != [] {
      var init, last := data[..|data| - 1], data[|data| - 1];
      DistinctIndices(init);
      assert forall k :: 0 <= k < |init| ==> init[k] == data[k];
      assert Indices(data) == Indices(init) + {last.index};
    }
  }

  function Below(n: nat): (all: set<nat>)
    ensures forall i: nat :: i in all <==> i < n
    ensures |all| == n
  {
    if n == 0 then {} else Below(n - 1) + {n - 1}
  }

  lemma SameSizeSubset(a: set<nat>, b: set<nat>)
    requires a <= b && |a| == |b|
    ensures a == b
  {
    assert b == a + (b - a);
    assert |b - a| == 0;
  }

  /** As many distinct indices as inputs leave no input without its vector. */
  lemma EveryIndexAppears(data: seq<Datum>, expected: nat, i: nat)
    requires IsPermutation(data, expected) && i < expected
    ensures i in Indices(data)
  {
    DistinctIndices(data);
    SameSizeSubset(Indices(data), Below(expected));
  }

  /**
   * `order_by_index`: it succeeds exactly on permutations, gives each input
   * its own vector, and never finds one missing.
   */
  method OrderByIndex(data: seq<Datum>, expected: nat) returns (result: Ordered)
    ensures result.InOrder? <==> IsPermutation(data, expected)
    ensures result.InOrder? ==>
              && |result.vectors| == expected
              && forall k :: 0 <= k < |data| ==> data[k].index < expected && result.vectors[data[k].index] == data[k].embedding
    ensures result.Disordered? ==>
              match result.error
              case WrongCount => |data| != expected
              case OutOfRange(i) => i >= expected && exists k :: 0 <= k < |data| && data[k].index == i
              case Duplicate(i) => exists k, l :: 0 <= k < l < |data| && data[k].index == data[l].index == i
              case Missing(_) => false
  {
    if |data| != expected {
      return Disordered(WrongCount);
    }
    var ordered: array<Option<Vector>> := new Option<Vector>[expected](_ => None);
    for n := 0 to |data|
      invariant forall k :: 0 <= k < n ==> data[k].index < expected
      invariant forall k, l :: 0 <= k < l < n ==> data[k].index != data[l].index
      invariant forall k :: 0 <= k < n ==> ordered[data[k].index] == Some(data[k].embedding)
      invariant forall i :: 0 <= i < expected && ordered[i].Some? ==> exists k :: 0 <= k < n && data[k].index == i
    {
      var datum := data[n];
      if datum.index >= expected {
        return Disordered(OutOfRange(datum.index));
      }
      if ordered[datum.index].Some? {
        return Disordered(Duplicate(datum.index));
      }
      ordered[datum.index] := Some(datum.embedding);
    }
    var slots := ordered[..];
    var vectors: seq<Vector> := [];
    for i := 0 to expected
      invariant |vectors| == i
      invariant forall j :: 0 <= j < i ==> slots[j] == Some(vectors[j])
    {
      EveryIndexAppears(data, expected, i);
      vectors := vectors + [slots[i].value];
    }
    return InOrder(vectors);
  }

  // ----- One pass, with nobody else writing -----

  datatype Cli = Cli(model: string, maxChars: nat, dim: Option<nat>, batchSize: nat, bundle: Option<int>)

  /** The endpoint's answer to a batch: entries tagged with the input they belong to, or a failure. */
  type Endpoint = (string, seq<string>) -> Option<seq<Datum>>

  /** Every entry of every answer is the embedding of the input it is tagged with. */
  ghost predicate Computes(endpoint: Endpoint, embed: (string, string) -> Vector) {
    forall model, inputs, k :: endpoint(model, inputs).Some? && 0 <= k < |endpoint(model, inputs).value| ==>
      var datum := endpoint(model, inputs).value[k];
      datum.index < |inputs| ==> datum.embedding == embed(model, inputs[datum.index])
  }

  /** Every request is answered, with one vector of the given length for each input. */
  ghost predicate Serves(endpoint: Endpoint, dim: nat) {
    forall model, inputs :: Answers(endpoint(model, inputs), |inputs|, dim)
  }

  ghost predicate Answers(answer: Option<seq<Datum>>, expected: nat, dim: nat) {
    && answer.Some? && IsPermutation(answer.value, expected)
    && forall k :: 0 <= k < |answer.value| ==> |answer.value[k].embedding| == dim
  }

  lemma AnswersMeans(answer: Option<seq<Datum>>, expected: nat, dim: nat)
    ensures Answers(answer, expected, dim) ==> answer.Some? && IsPermutation(answer.value, expected)
  {
  }

  lemma OrderedLengths(answer: Option<seq<Datum>>, vectors: seq<Vector>, dim: nat)
    requires answer.Some? && IsPermutation(answer.value, |vectors|)
    requires forall k :: 0 <= k < |answer.value| ==>
               vectors[answer.value[k].index] == answer.value[k].embedding
    ensures Answers(answer, |vectors|, dim) ==> forall i :: 0 <= i < |vectors| ==> |vectors[i]| == dim
  {
    var data := answer.value;
    if Answers(answer, |vectors|, dim) {
      forall i | 0 <= i < |vectors|
        ensures |vectors[i]| == dim
      {
        EveryIndexAppears(data, |vectors|, i);
        var k :| 0 <= k < |data| && data[k].index == i;
      }
    }
  }

  datatype PassError = EndpointFailed | BadResponse(error: OrderError) | WrongDimension
  datatype PassResult = Embedded(count: nat) | Failed(error: PassError)

  /** The policy's pins accept what this worker stamps on its vectors. */
  predicate MatchesPins(policy: Policy, cli: Cli) {
    && (policy.model == "" || policy.model == cli.model)
    && (policy.contract == "" || policy.contract == RenderContract(cli.maxChars))
  }

  predicate InScope(cli: Cli, id: Id) {
    cli.bundle.None? || id.bundle == cli.bundle.value
  }

  /** Put back in order, the answers are the embeddings of the inputs. */
  lemma AnswersInOrder(endpoint: Endpoint, embed: (string, string) -> Vector, model: string,
                       inputs: seq<string>, vectors: seq<Vector>)
    requires endpoint(model, inputs).Some? && IsPermutation(endpoint(model, inputs).value, |inputs|)
    requires |vectors| == |inputs|
    requires forall k :: 0 <= k < |inputs| ==>
               vectors[endpoint(model, inputs).value[k].index] == endpoint(model, inputs).value[k].embedding
    ensures Computes(endpoint, embed) ==> forall i :: 0 <= i < |inputs| ==> vectors[i] == embed(model, inputs[i])
  {
    var data := endpoint(model, inputs).value;
    if Computes(endpoint, embed) {
      forall i | 0 <= i < |inputs| ensures vectors[i] == embed(model, inputs[i]) {
        EveryIndexAppears(data, |inputs|, i);
        var k :| 0 <= k < |data| && data[k].index == i;
      }
    }
  }

  predicate PendingIn(policy: Policy, concepts: map<Id, Concept>, rows: map<Id, Row>, id: Id) {
    id in concepts && Pending(policy, concepts[id], RowOf(rows, id))
  }

  /** A row as this worker stamps it for a concept. */
  predicate Stamped(policy: Policy, cli: Cli, c: Concept, row: Row) {
    && row.dim == policy.dim && row.sourceHash == Some(c.fileHash)
    && row.model == Some(cli.model) && row.contract == Some(RenderContract(cli.maxChars))
  }

  class Catalog {
    const policy: Policy
    var concepts: map<Id, Concept>
    var rows: map<Id, Row>

    constructor (policy: Policy, concepts: map<Id, Concept>, rows: map<Id, Row>)
      ensures this.policy == policy && this.concepts == concepts && this.rows == rows
    {
      this.policy := policy;
      this.concepts := concepts;
      this.rows := rows;
    }

    predicate IsPending(id: Id)
      reads this
    {
      PendingIn(policy, concepts, rows, id)
    }

    /** `pending_concepts`: what needs an embedding, each concept once. */
    method PendingConcepts(cli: Cli) returns (pending: seq<Id>)
      ensures forall id :: id in pending <==> IsPending(id) && InScope(cli, id)
      ensures forall i, j :: 0 <= i < j < |pending| ==> pending[i] != pending[j]
    {
      pending := [];
      var rest := concepts.Keys;
      while rest != {}
        invariant rest <= concepts.Keys
        invariant forall id :: id in pending <==> id in concepts && id !in rest && IsPending(id) && InScope(cli, id)
        invariant forall i, j :: 0 <= i < j < |pending| ==> pending[i] != pending[j]
        decreases rest
      {
        var id :| id in rest;
        rest := rest - {id};
        if IsPending(id) && InScope(cli, id) {
          pending := pending + [id];
        }
      }
    }

    /** The compare-and-set setter; `None`, an error, for an unknown concept or a length that is not the policy's. */
    method StoreEmbedding(id: Id, polled: Concept, vector: Vector, model: string, contract: string)
      returns (stored: Option<bool>)
      modifies this
      ensures concepts == old(concepts)
      ensures stored == if id !in concepts || |vector| != policy.dim then None
                        else Some(concepts[id].fileHash == polled.fileHash)
      ensures rows == if stored == Some(true)
                      then old(rows)[id := Row(vector, |vector|, Some(polled.fileHash), Some(model), Some(contract))]
                      else old(rows)
    {
      if id !in concepts || |vector| != policy.dim {
        return None;
      }
      if concepts[id].fileHash != polled.fileHash {
        return Some(false);
      }
      rows := rows[id := Row(vector, |vector|, Some(polled.fileHash), Some(model), Some(contract))];
      return Some(true);
    }

    /** The row a concept has is one this pass stored: its current text, this worker's model and contract. */
    ghost predicate Fresh(cli: Cli, endpoint: Endpoint, embed: (string, string) -> Vector, id: Id)
      reads this
    {
      && id in concepts && id in rows
      && (Computes(endpoint, embed) ==>
            rows[id].vector == embed(cli.model, EmbeddingInput(concepts[id], cli.maxChars)))
      && Stamped(policy, cli, concepts[id], rows[id])
    }

    method EmbedBatch(cli: Cli, endpoint: Endpoint, dim: nat, batch: seq<Id>, ghost embed: (string, string) -> Vector)
      returns (result: PassResult)
      requires forall id :: id in batch ==> id in concepts
      modifies this
      ensures concepts == old(concepts)
      ensures forall id :: id !in batch ==> RowOf(rows, id) == RowOf(old(rows), id)
      ensures result.Embedded? ==> result.count == |batch| && forall id :: id in batch ==> Fresh(cli, endpoint, embed, id)
      ensures Serves(endpoint, dim) && dim == policy.dim ==> result.Embedded?
    {
      hide RenderContract, EmbeddingInput, Computes, Answers;
      var contract := RenderContract(cli.maxChars);
      var inputs := seq(|batch|, i requires 0 <= i < |batch| && batch[i] in concepts reads this =>
                          EmbeddingInput(concepts[batch[i]], cli.maxChars));
      var answer := endpoint(cli.model, inputs);
      AnswersMeans(answer, |inputs|, dim);
      if answer.None? {
        return Failed(EndpointFailed);
      }
      var ordered := OrderByIndex(answer.value, |inputs|);
      if ordered.Disordered? {
        return Failed(BadResponse(ordered.error));
      }
      AnswersInOrder(endpoint, embed, cli.model, inputs, ordered.vectors);
      OrderedLengths(answer, ordered.vectors, dim);
      var stored := 0;
      for n := 0 to |batch|
        invariant concepts == old(concepts)
        invariant forall id :: id !in batch[..n] ==> RowOf(rows, id) == RowOf(old(rows), id)
        invariant forall id :: id in batch[..n] ==> Fresh(cli, endpoint, embed, id)
        invariant stored == n
      {
        assert batch[n] in batch;
        assert batch[..n + 1] == batch[..n] + [batch[n]];
        var vector := ordered.vectors[n];
        if |vector| != dim {
          assert forall id :: id in batch[..n] ==> id in batch;
          return Failed(WrongDimension);
        }
        var polled := concepts[batch[n]];
        var outcome := StoreEmbedding(batch[n], polled, vector, cli.model, contract);
        if outcome.None? {
          assert forall id :: id in batch[..n] ==> id in batch;
          return Failed(WrongDimension);
        }
        if outcome.value {
          stored := stored + 1;
        }
      }
      assert batch[..|batch|] == batch;
      return Embedded(stored);
    }

    /**
     * `embed_all` with nobody editing: it succeeds when the endpoint serves
     * vectors of the policy's length; when it succeeds everything it found is
     * freshly embedded, and nothing in scope is left pending exactly when the
     * policy's pins accept this worker, or there was nothing to do.
     */
    method EmbedAll(cli: Cli, endpoint: Endpoint, ghost embed: (string, string) -> Vector)
      returns (result: PassResult)
      requires cli.batchSize >= 1
      modifies this
      ensures concepts == old(concepts)
      ensures result.Embedded? ==>
                && (forall id :: old(IsPending(id)) && InScope(cli, id) ==> Fresh(cli, endpoint, embed, id))
                && ((forall id :: IsPending(id) ==> !InScope(cli, id))
                    <==> MatchesPins(policy, cli) || forall id :: old(IsPending(id)) ==> !InScope(cli, id))
      ensures forall id :: !(old(IsPending(id)) && InScope(cli, id)) ==> RowOf(rows, id) == RowOf(old(rows), id)
      ensures Serves(endpoint, policy.dim) && (cli.dim == None || cli.dim == Some(policy.dim)) ==> result.Embedded?
    {
      hide RenderContract, EmbeddingInput, Computes, Pending, Stamped, MatchesPins, Serves;
      var dim := if cli.dim.Some? then cli.dim.value else policy.dim;
      var pending := PendingConcepts(cli);
      if pending == [] {
        return Embedded(0);
      }
      var embedded := 0;
      var at := 0;
      while at < |pending|
        invariant 0 <= at <= |pending|
        invariant concepts == old(concepts)
        invariant forall id :: id in pending[..at] ==> Fresh(cli, endpoint, embed, id)
        invariant forall id :: id !in pending[..at] ==> RowOf(rows, id) == RowOf(old(rows), id)
        invariant embedded == at
        decreases |pending| - at
      {
        var end := if at + cli.batchSize <= |pending| then at + cli.batchSize else |pending|;
        var batch := pending[at..end];
        assert forall id :: id in batch ==> id in pending;
        assert pending[..end] == pending[..at] + batch;
        ghost var done := pending[..at];
        ghost var rowsBefore := rows;
        var outcome := EmbedBatch(cli, endpoint, dim, batch, embed);
        assert forall id :: id in done ==> id in pending && id !in batch;
        assert forall id :: id !in pending ==> RowOf(rows, id) == RowOf(rowsBefore, id) == RowOf(old(rows), id);
        if outcome.Failed? {
          return outcome;
        }
        forall id | id in done ensures Fresh(cli, endpoint, embed, id) {
          assert RowOf(rows, id) == RowOf(rowsBefore, id);
        }
        embedded := embedded + outcome.count;
        at := end;
      }
      assert pending[..|pending|] == pending;
      hide PendingIn, RowOf;
      WhatIsLeft(policy, cli, concepts, old(rows), rows, pending);
      return Embedded(embedded);
    }
  }

  /**
   * After everything found in scope is stamped and nothing else has changed,
   * something is still pending exactly when the pins refuse the stamp.
   */
  lemma WhatIsLeft(policy: Policy, cli: Cli, concepts: map<Id, Concept>, before: map<Id, Row>, after: map<Id, Row>,
                   found: seq<Id>)
    requires found != []
    requires forall id :: id in found <==> PendingIn(policy, concepts, before, id) && InScope(cli, id)
    requires forall id :: id in found ==> id in concepts && id in after && Stamped(policy, cli, concepts[id], after[id])
    requires forall id :: id !in found ==> RowOf(after, id) == RowOf(before, id)
    ensures (forall id :: PendingIn(policy, concepts, after, id) ==> !InScope(cli, id)) <==> MatchesPins(policy, cli)
    ensures PendingIn(policy, concepts, before, found[0]) && InScope(cli, found[0])
  {
    hide RenderContract;
    assert found[0] in found;
    forall id | InScope(cli, id)
      ensures PendingIn(policy, concepts, after, id) <==> id in found && !MatchesPins(policy, cli)
    {
      if id in found {
        StampIsPending(policy, cli, concepts[id], after[id]);
      }
    }
  }

  lemma StampIsPending(policy: Policy, cli: Cli, c: Concept, row: Row)
    requires Stamped(policy, cli, c, row)
    ensures Pending(policy, c, Some(row)) <==> !MatchesPins(policy, cli)
  {
    hide RenderContract;
  }
}
