/**
 Discovery candidates: the honesty rules each must meet, and the merge of candidates that
 describe the same endpoint. Weights and confidences are reals.
 */
module DiscoveryMerge {
  import opened Prelude
  import Decimal

  datatype Kind = Serial | Usb | Network | Ble | MdnsService | Simulated
  datatype Endpoint = Endpoint(kind: Kind, address: string, port: Option<nat>)
  datatype Evidence = Evidence(source: string, detail: string, weight: real)

  datatype Candidate = Candidate(
    endpoint: Endpoint,
    possibleIdentity: seq<string>,
    evidence: seq<Evidence>,
    confidence: real,
    interfaces: seq<string>)

  // ---- The key of an endpoint ----

  function KindText(kind: Kind): string {
    match kind
    case Serial => "serial"
    case Usb => "usb"
    case Network => "network"
    case Ble => "ble"
    case MdnsService => "mdns"
    case Simulated => "simulated"
  }

  function PortText(port: Option<nat>): string {
    if port.None? then "" else Decimal.NatText(port.value)
  }

  function Key(e: Endpoint): string {
    (KindText(e.kind) + ":") + ((e.address + ":") + PortText(e.port))
  }

  ghost predicate NoColon(s: string) {
    forall i :: 0 <= i < |s| ==> s[i] != ':'
  }

  lemma {:induction false} FirstColon(a: string, x: string, b: string, y: string)
    requires NoColon(a) && NoColon(b) && (a + ":") + x == (b + ":") + y
    ensures a == b && x == y
  {
    var s := (a + ":") + x;
    assert s[|a|] == ':' && s[|b|] == ':';
    assert forall i :: 0 <= i < |a| ==> s[i] == a[i];
    assert forall i :: 0 <= i < |b| ==> s[i] == b[i];
    assert s[..|a|] == a && s[..|b|] == b;
    assert s[|a| + 1..] == x && s[|b| + 1..] == y;
  }

  lemma {:induction false} LastColon(x: string, a: string, y: string, b: string)
    requires NoColon(a) && NoColon(b) && (x + ":") + a == (y + ":") + b
    ensures x == y && a == b
  {
    var s := (x + ":") + a;
    assert s[|x|] == ':' && s[|y|] == ':';
    assert forall i :: 0 <= i < |a| ==> s[|x| + 1 + i] == a[i];
    assert forall i :: 0 <= i < |b| ==> s[|y| + 1 + i] == b[i];
    assert |x| == |y|;
    assert s[..|x|] == x && s[..|y|] == y;
    assert s[|x| + 1..] == a && s[|y| + 1..] == b;
  }

  /** Two endpoints share a key only if they are the same endpoint, colons in addresses included. */
  lemma {:induction false} KeyInjective(e: Endpoint, f: Endpoint)
    requires Key(e) == Key(f)
    ensures e == f
  {
    assert NoColon(PortText(e.port)) && NoColon(PortText(f.port));
    FirstColon(KindText(e.kind), (e.address + ":") + PortText(e.port), KindText(f.kind),
               (f.address + ":") + PortText(f.port));
    LastColon(e.address, PortText(e.port), f.address, PortText(f.port));
    KindTextInjective(e.kind, f.kind);
    if e.port.Some? && f.port.Some? { Decimal.NatTextInjective(e.port.value, f.port.value); }
  }

  lemma {:induction false} KindTextInjective(a: Kind, b: Kind)
    requires KindText(a) == KindText(b)
    ensures a == b
  {
    assert |KindText(a)| == |KindText(b)| && KindText(a)[0] == KindText(b)[0];
  }

  // ---- The honesty rules ----

  const ABSOLUTE_CAP := 0.95
  const WEAK_CAP := 0.5
  const STRONG := 0.9

  datatype Verdict = Honest | NoEvidence | OverCap | WeakEvidence

  function Strongest(evidence: seq<Evidence>): (w: real)
    requires evidence != []
    ensures exists i :: 0 <= i < |evidence| && evidence[i].weight == w
    ensures forall i :: 0 <= i < |evidence| ==> evidence[i].weight <= w
  {
    var last := evidence[|evidence| - 1].weight;
    if |evidence| == 1 then last
    else
      var rest := Strongest(evidence[..|evidence| - 1]);
      if rest >= last then rest else last
  }

  function Validate(c: Candidate): Verdict {
    if c.evidence == [] then NoEvidence
    else if c.confidence > ABSOLUTE_CAP then OverCap
    else if Strongest(c.evidence) < STRONG && c.confidence > WEAK_CAP then WeakEvidence
    else Honest
  }

  /** Something was seen, certainty is never claimed, and more than half of it takes strong evidence. */
  ghost predicate HonestClaim(c: Candidate) {
    && c.evidence != [] && c.confidence <= ABSOLUTE_CAP
    && (c.confidence <= WEAK_CAP || exists i :: 0 <= i < |c.evidence| && c.evidence[i].weight >= STRONG)
  }

  lemma {:induction false} HonestExactly(c: Candidate)
    ensures Validate(c) == Honest <==> HonestClaim(c)
  {
    if c.evidence != [] {
      var w := Strongest(c.evidence);
      var i :| 0 <= i < |c.evidence| && c.evidence[i].weight == w;
    }
  }

  // ---- Merging on values ----

  function AddNew(have: seq<string>, more: seq<string>): seq<string> {
    if more == [] then have
    else
      var before := AddNew(have, more[..|more| - 1]);
      var last := more[|more| - 1];
      if last in before then before else before + [last]
  }

  function Join(a: Candidate, b: Candidate): Candidate {
    a.(possibleIdentity := a.possibleIdentity + b.possibleIdentity, evidence := a.evidence + b.evidence,
       confidence := if a.confidence >= b.confidence then a.confidence else b.confidence,
       interfaces := AddNew(a.interfaces, b.interfaces))
  }

  function Endpoints(cs: seq<Candidate>): (es: seq<Endpoint>)
    ensures |es| == |cs| && forall i :: 0 <= i < |cs| ==> es[i] == cs[i].endpoint
  {
    if cs == [] then [] else Endpoints(cs[..|cs| - 1]) + [cs[|cs| - 1].endpoint]
  }

  /** Where the candidate of an endpoint stands, if anywhere. */
  function Find(cs: seq<Candidate>, e: Endpoint): (r: Option<nat>)
    ensures r.Some? ==> r.value < |cs| && cs[r.value].endpoint == e
    ensures r.None? ==> forall i :: 0 <= i < |cs| ==> cs[i].endpoint != e
  {
    if cs == [] then None
    else if cs[|cs| - 1].endpoint == e then Some(|cs| - 1)
    else Find(cs[..|cs| - 1], e)
  }

  function MergeInto(merged: seq<Candidate>, c: Candidate): seq<Candidate> {
    var at := Find(merged, c.endpoint);
    if at.None? then merged + [c] else merged[at.value := Join(merged[at.value], c)]
  }

  function Merge(cs: seq<Candidate>): seq<Candidate> {
    if cs == [] then [] else MergeInto(Merge(cs[..|cs| - 1]), cs[|cs| - 1])
  }

  // ---- The merge on objects ----

  class CandidateObject {
    const endpoint: Endpoint
    var possibleIdentity: seq<string>
    var evidence: seq<Evidence>
    var confidence: real
    var interfaces: seq<string>

    function Value(): Candidate
      reads this
    {
      Candidate(endpoint, possibleIdentity, evidence, confidence, interfaces)
    }

    constructor (c: Candidate)
      ensures Value() == c
    {
      endpoint, possibleIdentity, evidence, confidence, interfaces :=
        c.endpoint, c.possibleIdentity, c.evidence, c.confidence, c.interfaces;
    }

    /** Take over what another candidate holds; absorbing itself, a candidate doubles. */
    method Absorb(other: CandidateObject)
      modifies this
      ensures Value() == Join(old(Value()), old(other.Value()))
    {
      var theirs := other.interfaces;
      possibleIdentity := possibleIdentity + other.possibleIdentity;
      evidence := evidence + other.evidence;
      confidence := if confidence >= other.confidence then confidence else other.confidence;
      ghost var before := interfaces;
      for i := 0 to |theirs|
        invariant interfaces == AddNew(before, theirs[..i])
        invariant Value() == Join(old(Value()), old(other.Value())).(interfaces := interfaces)
      {
        assert theirs[..i + 1][..i] == theirs[..i];
        if theirs[i] !in interfaces {
          interfaces := interfaces + [theirs[i]];
        }
      }
      assert theirs[..|theirs|] == theirs;
    }
  }

  function Values(objects: seq<CandidateObject>): (cs: seq<Candidate>)
    reads objects
    ensures |cs| == |objects| && forall i :: 0 <= i < |objects| ==> cs[i] == objects[i].Value()
  {
    seq(|objects|, i requires 0 <= i < |objects| reads objects => objects[i].Value())
  }

  ghost predicate Distinct<T(!new)>(s: seq<T>) {
    forall i, j :: 0 <= i < j < |s| ==> s[i] != s[j]
  }

  function KeysOf(cs: seq<Candidate>): (keys: seq<string>)
    ensures |keys| == |cs|
  {
    if cs == [] then [] else KeysOf(cs[..|cs| - 1]) + [Key(cs[|cs| - 1].endpoint)]
  }

  lemma {:induction false} KeysAt(cs: seq<Candidate>, i: nat)
    requires i < |cs|
    ensures KeysOf(cs)[i] == Key(cs[i].endpoint)
    decreases |cs|
  {
    if i < |cs| - 1 { KeysAt(cs[..|cs| - 1], i); }
  }

  /** `byKey` gives the place of each key. */
  ghost predicate Indexed(byKey: map<string, nat>, keys: seq<string>) {
    && (forall i :: 0 <= i < |keys| ==> keys[i] in byKey && byKey[keys[i]] == i)
    && (forall k :: k in byKey ==> byKey[k] < |keys| && keys[byKey[k]] == k)
  }

  lemma {:induction false} IndexedLookup(byKey: map<string, nat>, cs: seq<Candidate>, e: Endpoint)
    requires Indexed(byKey, KeysOf(cs))
    ensures Key(e) in byKey <==> Find(cs, e).Some?
    ensures Key(e) in byKey ==> Find(cs, e) == Some(byKey[Key(e)])
  {
    var key := Key(e);
    if key in byKey {
      KeysAt(cs, byKey[key]);
      KeyInjective(cs[byKey[key]].endpoint, e);
    }
    var at := Find(cs, e);
    if at.Some? { KeysAt(cs, at.value); }
  }

  lemma {:induction false} IndexedAppend(byKey: map<string, nat>, cs: seq<Candidate>, c: Candidate)
    requires Indexed(byKey, KeysOf(cs)) && Key(c.endpoint) !in byKey
    ensures Indexed(byKey[Key(c.endpoint) := |cs|], KeysOf(cs + [c]))
  {
    assert (cs + [c])[..|cs|] == cs;
    IndexMore(byKey, KeysOf(cs), Key(c.endpoint));
  }

  lemma {:induction false} IndexMore(byKey: map<string, nat>, keys: seq<string>, key: string)
    requires Indexed(byKey, keys) && key !in byKey
    ensures Indexed(byKey[key := |keys|], keys + [key])
  {
  }

  lemma {:induction false} KeysUpdated(cs: seq<Candidate>, at: nat, c: Candidate)
    requires at < |cs| && c.endpoint == cs[at].endpoint
    ensures KeysOf(cs[at := c]) == KeysOf(cs)
  {
    var after := cs[at := c];
    forall i | 0 <= i < |cs| ensures KeysOf(after)[i] == KeysOf(cs)[i] {
      KeysAt(after, i);
      KeysAt(cs, i);
      assert after[i].endpoint == cs[i].endpoint;
    }
  }

  /** The index after one more candidate, and what became of the merged values. */
  lemma {:induction false} IndexStep(byKey: map<string, nat>, cs: seq<Candidate>, c: Candidate)
    requires Indexed(byKey, KeysOf(cs))
    ensures Key(c.endpoint) !in byKey ==>
              Indexed(byKey[Key(c.endpoint) := |cs|], KeysOf(MergeInto(cs, c))) && MergeInto(cs, c) == cs + [c]
    ensures Key(c.endpoint) in byKey ==>
              var at := byKey[Key(c.endpoint)];
              Indexed(byKey, KeysOf(MergeInto(cs, c))) && at < |cs| && MergeInto(cs, c) == cs[at := Join(cs[at], c)]
  {
    var key := Key(c.endpoint);
    IndexedLookup(byKey, cs, c.endpoint);
    if key in byKey {
      KeysUpdated(cs, byKey[key], Join(cs[byKey[key]], c));
    } else {
      IndexedAppend(byKey, cs, c);
    }
  }

  /** The objects are distinct and hold these values. */
  ghost predicate Holding(objects: seq<CandidateObject>, cs: seq<Candidate>)
    reads objects
  {
    && |objects| == |cs|
    && (forall k :: 0 <= k < |objects| ==> objects[k].Value() == cs[k])
    && (forall k, m :: 0 <= k < m < |objects| ==> objects[k] != objects[m])
  }

  method MergeOne(candidate: CandidateObject, merged: seq<CandidateObject>, byKey: map<string, nat>,
                  ghost cs: seq<Candidate>)
    returns (merged': seq<CandidateObject>, byKey': map<string, nat>)
    requires Holding(merged, cs) && Indexed(byKey, KeysOf(cs))
    modifies merged
    ensures merged' == if Find(cs, candidate.endpoint).None? then merged + [candidate] else merged
    ensures Holding(merged', MergeInto(cs, old(candidate.Value()))) &&
              Indexed(byKey', KeysOf(MergeInto(cs, old(candidate.Value()))))
  {
    var key := Key(candidate.endpoint);
    merged', byKey' := merged, byKey;
    IndexStep(byKey, cs, candidate.Value());
    IndexedLookup(byKey, cs, candidate.endpoint);
    if key !in byKey {
      byKey' := byKey[key := |merged|];
      merged' := merged + [candidate];
    } else {
      merged[byKey[key]].Absorb(candidate);
    }
  }

  /** The merged objects so far, what each candidate held when its turn came, and what the merged ones hold. */
  datatype Progress = Progress(merged: seq<CandidateObject>, read: seq<Candidate>, result: seq<Candidate>)

  ghost predicate Paired(p: Progress) {
    |p.merged| == |p.result|
  }

  /** What a candidate holds now: the merged value if it is the object of its endpoint, its given value otherwise. */
  ghost function Current(p: Progress, item: CandidateObject, given: Candidate): Candidate
    requires Paired(p)
  {
    var at := Find(p.result, given.endpoint);
    if at.Some? && p.merged[at.value] == item then p.result[at.value] else given
  }

  ghost function TakeTurn(p: Progress, item: CandidateObject, given: Candidate): (p': Progress)
    requires Paired(p)
    ensures Paired(p')
  {
    var c := Current(p, item, given);
    Progress(p.merged + if Find(p.result, c.endpoint).None? then [item] else [], p.read + [c], MergeInto(p.result, c))
  }

  /** The merge on references: the list may name one object several times. */
  ghost function MergeObjects(objects: seq<CandidateObject>, given: seq<Candidate>): (p: Progress)
    requires |objects| == |given|
    ensures Paired(p)
  {
    if objects == [] then Progress([], [], [])
    else
      var n := |objects| - 1;
      TakeTurn(MergeObjects(objects[..n], given[..n]), objects[n], given[n])
  }

  lemma {:induction false} ObjectsSnoc(objects: seq<CandidateObject>, given: seq<Candidate>, item: CandidateObject,
                                       c: Candidate)
    requires |objects| == |given|
    ensures MergeObjects(objects + [item], given + [c]) == TakeTurn(MergeObjects(objects, given), item, c)
  {
    assert (objects + [item])[..|objects|] == objects && (given + [c])[..|given|] == given;
  }

  lemma {:induction false} MergeSnoc(read: seq<Candidate>, c: Candidate)
    ensures Merge(read + [c]) == MergeInto(Merge(read), c)
  {
    assert (read + [c])[..|read|] == read;
  }

  /** The result is the merge of the values read, so every law of the merge holds of it. */
  lemma {:induction false} ResultIsMerge(objects: seq<CandidateObject>, given: seq<Candidate>)
    requires |objects| == |given|
    ensures MergeObjects(objects, given).result == Merge(MergeObjects(objects, given).read)
    decreases |objects|
  {
    if objects != [] {
      var n := |objects| - 1;
      ResultIsMerge(objects[..n], given[..n]);
      var before := MergeObjects(objects[..n], given[..n]);
      MergeSnoc(before.read, Current(before, objects[n], given[n]));
    }
  }

  /** Objects that are not merged are still as given; those that are hold the merged values. */
  ghost predicate MergedSoFar(candidates: seq<CandidateObject>, given: seq<Candidate>, p: Progress,
                              byKey: map<string, nat>)
    reads candidates, p.merged
  {
    && |given| == |candidates| && Holding(p.merged, p.result) && Indexed(byKey, KeysOf(p.result))
    && (forall k :: 0 <= k < |p.merged| ==> p.merged[k] in candidates)
    && (forall j :: 0 <= j < |candidates| ==> candidates[j].endpoint == given[j].endpoint)
    && (forall j :: 0 <= j < |candidates| && candidates[j] !in p.merged ==> candidates[j].Value() == given[j])
  }

  lemma {:induction false} CurrentIsValue(candidates: seq<CandidateObject>, given: seq<Candidate>, p: Progress,
                                          byKey: map<string, nat>, i: nat)
    requires MergedSoFar(candidates, given, p, byKey) && i < |candidates|
    ensures Current(p, candidates[i], given[i]) == candidates[i].Value()
  {
    var cs, item := p.result, candidates[i];
    if item in p.merged {
      var k :| 0 <= k < |p.merged| && p.merged[k] == item;
      assert item.Value() == cs[k];
      FoundAt(byKey, cs, k);
    }
  }

  lemma {:induction false} FoundAt(byKey: map<string, nat>, cs: seq<Candidate>, k: nat)
    requires Indexed(byKey, KeysOf(cs)) && k < |cs|
    ensures Find(cs, cs[k].endpoint) == Some(k)
  {
    KeysAt(cs, k);
    IndexedLookup(byKey, cs, cs[k].endpoint);
  }

  method MergeNext(candidates: seq<CandidateObject>, i: nat, ghost given: seq<Candidate>, ghost p: Progress,
                   merged: seq<CandidateObject>, byKey: map<string, nat>)
    returns (merged': seq<CandidateObject>, byKey': map<string, nat>)
    requires i < |candidates| && p.merged == merged && MergedSoFar(candidates, given, p, byKey)
    modifies candidates
    ensures merged' == TakeTurn(p, candidates[i], given[i]).merged
    ensures MergedSoFar(candidates, given, TakeTurn(p, candidates[i], given[i]), byKey')
  {
    CurrentIsValue(candidates, given, p, byKey, i);
    merged', byKey' := MergeOne(candidates[i], merged, byKey, p.result);
  }

  /**
   One object per endpoint, the first seen, holding what all objects of that endpoint held
   when their turn came.
   */
  method MergeCandidates(candidates: seq<CandidateObject>) returns (merged: seq<CandidateObject>)
    modifies candidates
    ensures var p := MergeObjects(candidates, old(Values(candidates)));
            merged == p.merged && Holding(merged, p.result)
    ensures forall k :: 0 <= k < |merged| ==> merged[k] in candidates
    ensures forall j :: 0 <= j < |candidates| && candidates[j] !in merged ==>
              candidates[j].Value() == old(candidates[j].Value())
  {
    merged := [];
    var byKey: map<string, nat> := map[];
    ghost var given := Values(candidates);
    ghost var p := Progress([], [], []);
    for i := 0 to |candidates|
      invariant p.merged == merged && p == MergeObjects(candidates[..i], given[..i])
      invariant MergedSoFar(candidates, given, p, byKey)
    {
      OneMore(candidates, given, i);
      merged, byKey := MergeNext(candidates, i, given, p, merged, byKey);
      p := TakeTurn(p, candidates[i], given[i]);
    }
    AllTaken(candidates, given);
  }

  lemma {:induction false} OneMore(objects: seq<CandidateObject>, given: seq<Candidate>, i: nat)
    requires |objects| == |given| && i < |objects|
    ensures MergeObjects(objects[..i + 1], given[..i + 1]) ==
              TakeTurn(MergeObjects(objects[..i], given[..i]), objects[i], given[i])
  {
    ObjectsSnoc(objects[..i], given[..i], objects[i], given[i]);
    assert objects[..i + 1] == objects[..i] + [objects[i]] && given[..i + 1] == given[..i] + [given[i]];
  }

  lemma {:induction false} AllTaken(objects: seq<CandidateObject>, given: seq<Candidate>)
    requires |objects| == |given|
    ensures MergeObjects(objects[..|objects|], given[..|objects|]) == MergeObjects(objects, given)
  {
    assert objects[..|objects|] == objects && given[..|objects|] == given;
  }

  lemma {:induction false} MergedAreNamed(objects: seq<CandidateObject>, given: seq<Candidate>)
    requires |objects| == |given|
    ensures forall k :: 0 <= k < |MergeObjects(objects, given).merged| ==>
              MergeObjects(objects, given).merged[k] in objects
    decreases |objects|
  {
    if objects != [] {
      var n := |objects| - 1;
      MergedAreNamed(objects[..n], given[..n]);
      assert forall x :: x in objects[..n] ==> x in objects;
    }
  }

  lemma {:induction false} FreshTurn(p: Progress, item: CandidateObject, given: Candidate)
    requires Paired(p) && item !in p.merged
    ensures TakeTurn(p, item, given).read == p.read + [given]
  {
  }

  lemma {:induction false} ReadSnoc(objects: seq<CandidateObject>, given: seq<Candidate>)
    requires objects != [] && |objects| == |given|
    ensures var n := |objects| - 1;
            var p := MergeObjects(objects[..n], given[..n]);
            MergeObjects(objects, given).read == p.read + [Current(p, objects[n], given[n])]
  {
  }

  lemma {:induction false} NotNamedYet(objects: seq<CandidateObject>, given: seq<Candidate>)
    requires objects != [] && |objects| == |given|
    requires forall i, j :: 0 <= i < j < |objects| ==> objects[i] != objects[j]
    ensures var n := |objects| - 1; objects[n] !in MergeObjects(objects[..n], given[..n]).merged
  {
    var n := |objects| - 1;
    MergedAreNamed(objects[..n], given[..n]);
    assert objects[n] !in objects[..n];
  }

  lemma {:induction false} ReadAsGiven(objects: seq<CandidateObject>, given: seq<Candidate>)
    requires objects != [] && |objects| == |given|
    requires var n := |objects| - 1;
             var p := MergeObjects(objects[..n], given[..n]);
             objects[n] !in p.merged && p.read == given[..n]
    ensures MergeObjects(objects, given).read == given
  {
    var n := |objects| - 1;
    FreshTurn(MergeObjects(objects[..n], given[..n]), objects[n], given[n]);
    ReadSnoc(objects, given);
    assert given == given[..n] + [given[n]];
  }

  lemma {:induction false} DistinctRead(objects: seq<CandidateObject>, given: seq<Candidate>)
    requires |objects| == |given| && forall i, j :: 0 <= i < j < |objects| ==> objects[i] != objects[j]
    ensures MergeObjects(objects, given).read == given
    decreases |objects|
  {
    if objects != [] {
      DistinctRead(objects[..|objects| - 1], given[..|objects| - 1]);
      NotNamedYet(objects, given);
      ReadAsGiven(objects, given);
    }
  }

  /** When no object is named twice, each is read as it was given: the result is the merge of the given values. */
  lemma {:induction false} DistinctObjectsMerge(objects: seq<CandidateObject>, given: seq<Candidate>)
    requires |objects| == |given| && forall i, j :: 0 <= i < j < |objects| ==> objects[i] != objects[j]
    ensures MergeObjects(objects, given).result == Merge(given)
  {
    DistinctRead(objects, given);
    ResultIsMerge(objects, given);
  }

  lemma {:induction false} TurnHonest(p: Progress, item: CandidateObject, given: Candidate)
    requires Paired(p) && Validate(given) == Honest
    requires forall k :: 0 <= k < |p.result| ==> Validate(p.result[k]) == Honest
    ensures forall k :: 0 <= k < |TakeTurn(p, item, given).result| ==>
              Validate(TakeTurn(p, item, given).result[k]) == Honest
  {
    MergeIntoHonest(p.result, Current(p, item, given));
  }

  /** Whatever the list names, if every given value is honest so is every merged one. */
  lemma {:induction false} ObjectsKeepHonesty(objects: seq<CandidateObject>, given: seq<Candidate>)
    requires |objects| == |given| && forall i :: 0 <= i < |given| ==> Validate(given[i]) == Honest
    ensures forall k :: 0 <= k < |MergeObjects(objects, given).result| ==>
              Validate(MergeObjects(objects, given).result[k]) == Honest
    decreases |objects|
  {
    if objects != [] {
      var n := |objects| - 1;
      ObjectsKeepHonesty(objects[..n], given[..n]);
      TurnHonest(MergeObjects(objects[..n], given[..n]), objects[n], given[n]);
    }
  }

  /** One more turn for the one endpoint merged so far. */
  lemma {:induction false} SameEndpointAgain(p: Progress, a: CandidateObject, m: Candidate, item: CandidateObject,
                                             given: Candidate)
    requires p.merged == [a] && p.result == [m] && m.endpoint == given.endpoint
    ensures TakeTurn(p, item, given).merged == [a]
    ensures TakeTurn(p, item, given).result == [Join(m, if item == a then m else given)]
  {
    assert Find([m], given.endpoint) == Some(0);
  }

  /** A list that comes back to an object after another of its endpoint counts the evidence of both again. */
  lemma {:induction false} ComingBackDoubles(a: CandidateObject, b: CandidateObject, va: Candidate, vb: Candidate)
    requires a != b && va.endpoint == vb.endpoint
    ensures MergeObjects([a, b, a], [va, vb, va]).merged == [a]
    ensures MergeObjects([a, b, a], [va, vb, va]).result == [Join(Join(va, vb), Join(va, vb))]
  {
    OneTurn(a, va);
    TwoTurns(a, b, va, vb);
    SameEndpointAgain(MergeObjects([a], [va]), a, va, b, vb);
    var p := MergeObjects([a, b], [va, vb]);
    ObjectsSnoc([a, b], [va, vb], a, va);
    assert [a, b] + [a] == [a, b, a] && [va, vb] + [va] == [va, vb, va];
    SameEndpointAgain(p, a, Join(va, vb), a, va);
  }

  lemma {:induction false} OneTurn(a: CandidateObject, va: Candidate)
    ensures MergeObjects([a], [va]).merged == [a] && MergeObjects([a], [va]).result == [va]
  {
    ObjectsSnoc([], [], a, va);
    assert [] + [a] == [a] && [] + [va] == [va];
  }

  lemma {:induction false} TwoTurns(a: CandidateObject, b: CandidateObject, va: Candidate, vb: Candidate)
    ensures MergeObjects([a, b], [va, vb]) == TakeTurn(MergeObjects([a], [va]), b, vb)
  {
    ObjectsSnoc([a], [va], b, vb);
    assert [a] + [b] == [a, b] && [va] + [vb] == [va, vb];
  }

  // ---- What the merge keeps ----

  lemma {:induction false} MergeIntoEndpoints(merged: seq<Candidate>, c: Candidate)
    ensures Endpoints(MergeInto(merged, c)) ==
              Endpoints(merged) + if Find(merged, c.endpoint).None? then [c.endpoint] else []
  {
  }

  /** The distinct members of a sequence, in the order they first occur. */
  function FirstSeen<T(==)>(keys: seq<T>): seq<T> {
    if keys == [] then []
    else
      var before := FirstSeen(keys[..|keys| - 1]);
      var last := keys[|keys| - 1];
      if last in keys[..|keys| - 1] then before else before + [last]
  }

  lemma {:induction false} FirstSeenDistinct<T(!new)>(keys: seq<T>)
    ensures Distinct(FirstSeen(keys)) && forall k :: k in FirstSeen(keys) <==> k in keys
    decreases |keys|
  {
    if keys != [] {
      var init := keys[..|keys| - 1];
      FirstSeenDistinct(init);
      assert keys == init + [keys[|keys| - 1]];
    }
  }

  /** The merged endpoints are the distinct input endpoints, in the order they were first seen. */
  lemma {:induction false} EndpointsInFirstSeenOrder(cs: seq<Candidate>)
    ensures Endpoints(Merge(cs)) == FirstSeen(Endpoints(cs)) && Distinct(Endpoints(Merge(cs)))
    decreases |cs|
  {
    if cs != [] {
      var init, last := cs[..|cs| - 1], cs[|cs| - 1];
      EndpointsInFirstSeenOrder(init);
      MergeIntoEndpoints(Merge(init), last);
      FirstSeenDistinct(Endpoints(init));
      assert last.endpoint in Endpoints(Merge(init)) <==> Find(Merge(init), last.endpoint).Some?;
      assert Endpoints(cs)[..|cs| - 1] == Endpoints(init);
    }
    FirstSeenDistinct(Endpoints(cs));
  }

  /** Joining two honest claims about one endpoint is honest: the larger confidence keeps its own evidence. */
  lemma {:induction false} JoinHonest(a: Candidate, b: Candidate)
    requires HonestClaim(a) && HonestClaim(b)
    ensures HonestClaim(Join(a, b))
  {
    var j := Join(a, b);
    if j.confidence > WEAK_CAP {
      if a.confidence >= b.confidence {
        var i :| 0 <= i < |a.evidence| && a.evidence[i].weight >= STRONG;
        assert j.evidence[i].weight >= STRONG;
      } else {
        var i :| 0 <= i < |b.evidence| && b.evidence[i].weight >= STRONG;
        assert j.evidence[|a.evidence| + i].weight >= STRONG;
      }
    }
  }

  lemma {:induction false} MergeIntoHonest(merged: seq<Candidate>, c: Candidate)
    requires Validate(c) == Honest && forall i :: 0 <= i < |merged| ==> Validate(merged[i]) == Honest
    ensures forall i :: 0 <= i < |MergeInto(merged, c)| ==> Validate(MergeInto(merged, c)[i]) == Honest
  {
    var at := Find(merged, c.endpoint);
    if at.Some? {
      var a := merged[at.value];
      HonestExactly(a);
      HonestExactly(c);
      JoinHonest(a, c);
      HonestExactly(Join(a, c));
    }
  }

  /** If every candidate passes the honesty rules, so does every merged one. */
  lemma {:induction false} MergeKeepsHonesty(cs: seq<Candidate>)
    requires forall i :: 0 <= i < |cs| ==> Validate(cs[i]) == Honest
    ensures forall i :: 0 <= i < |Merge(cs)| ==> Validate(Merge(cs)[i]) == Honest
    decreases |cs|
  {
    if cs != [] {
      MergeKeepsHonesty(cs[..|cs| - 1]);
      MergeIntoHonest(Merge(cs[..|cs| - 1]), cs[|cs| - 1]);
    }
  }

  /** The evidence for one endpoint, in the order it was given. */
  function EvidenceFor(cs: seq<Candidate>, e: Endpoint): seq<Evidence> {
    if cs == [] then []
    else EvidenceFor(cs[..|cs| - 1], e) + if cs[|cs| - 1].endpoint == e then cs[|cs| - 1].evidence else []
  }

  /** The identities guessed for one endpoint, in the order they were given. */
  function IdentitiesFor(cs: seq<Candidate>, e: Endpoint): seq<string> {
    if cs == [] then []
    else IdentitiesFor(cs[..|cs| - 1], e) + if cs[|cs| - 1].endpoint == e then cs[|cs| - 1].possibleIdentity else []
  }

  function InterfacesFor(cs: seq<Candidate>, e: Endpoint): set<string> {
    if cs == [] then {}
    else
      var last := cs[|cs| - 1];
      InterfacesFor(cs[..|cs| - 1], e) + if last.endpoint == e then (set x | x in last.interfaces) else {}
  }

  lemma {:induction false} AddNewUnites(have: seq<string>, more: seq<string>)
    ensures forall x :: x in AddNew(have, more) <==> x in have || x in more
    ensures Distinct(have) ==> Distinct(AddNew(have, more))
    decreases |more|
  {
    if more != [] {
      var init, last := more[..|more| - 1], more[|more| - 1];
      AddNewUnites(have, init);
      assert more == init + [last];
      assert forall x :: x in AddNew(have, more) <==> x in AddNew(have, init) || x == last;
    }
  }

  /** The largest confidence claimed for an endpoint, if any is. */
  function HighestFor(cs: seq<Candidate>, e: Endpoint): (r: Option<real>)
    ensures r.Some? ==> forall i :: 0 <= i < |cs| && cs[i].endpoint == e ==> cs[i].confidence <= r.value
    ensures r.Some? ==> exists i :: 0 <= i < |cs| && cs[i].endpoint == e && cs[i].confidence == r.value
    ensures r.None? ==> forall i :: 0 <= i < |cs| ==> cs[i].endpoint != e
  {
    if cs == [] then None
    else
      var before := HighestFor(cs[..|cs| - 1], e);
      var last := cs[|cs| - 1];
      if last.endpoint != e then before
      else if before.Some? && before.value >= last.confidence then before
      else Some(last.confidence)
  }

  lemma {:induction false} MergedDistinct(cs: seq<Candidate>)
    ensures Distinct(Endpoints(Merge(cs)))
  {
    EndpointsInFirstSeenOrder(cs);
  }

  /** What merging promises about one merged candidate. */
  ghost predicate HoldsAllOf(m: Candidate, cs: seq<Candidate>) {
    && m.evidence == EvidenceFor(cs, m.endpoint) && HighestFor(cs, m.endpoint) == Some(m.confidence)
    && m.possibleIdentity == IdentitiesFor(cs, m.endpoint)
    && (set x | x in m.interfaces) == InterfacesFor(cs, m.endpoint)
  }

  lemma {:induction false} HoldsMore(m: Candidate, cs: seq<Candidate>, c: Candidate)
    requires HoldsAllOf(m, cs)
    ensures HoldsAllOf(if c.endpoint == m.endpoint then Join(m, c) else m, cs + [c])
  {
    assert (cs + [c])[..|cs|] == cs;
    AddNewUnites(m.interfaces, c.interfaces);
  }

  lemma {:induction false} HoldsFirst(cs: seq<Candidate>, c: Candidate)
    requires forall i :: 0 <= i < |cs| ==> cs[i].endpoint != c.endpoint
    ensures HoldsAllOf(c, cs + [c])
  {
    assert (cs + [c])[..|cs|] == cs;
    NoEvidenceFor(cs, c.endpoint);
  }

  lemma {:induction false} NoEvidenceFor(cs: seq<Candidate>, e: Endpoint)
    requires forall i :: 0 <= i < |cs| ==> cs[i].endpoint != e
    ensures EvidenceFor(cs, e) == [] && IdentitiesFor(cs, e) == [] && InterfacesFor(cs, e) == {}
    decreases |cs|
  {
    if cs != [] { NoEvidenceFor(cs[..|cs| - 1], e); }
  }

  /**
   Each merged candidate carries exactly the evidence and the identities given for its
   endpoint, in order, the union of its interfaces and the largest confidence claimed for it.
   */
  lemma {:induction false} MergedHoldsAll(cs: seq<Candidate>, k: nat)
    requires k < |Merge(cs)|
    ensures HoldsAllOf(Merge(cs)[k], cs)
    decreases |cs|, 1
  {
    var init, last := cs[..|cs| - 1], cs[|cs| - 1];
    assert cs == init + [last];
    MergedHoldsSnoc(init, last, k);
  }

  lemma {:induction false} MergedHoldsSnoc(init: seq<Candidate>, last: Candidate, k: nat)
    requires k < |MergeInto(Merge(init), last)|
    ensures HoldsAllOf(MergeInto(Merge(init), last)[k], init + [last])
    decreases |init| + 1, 0
  {
    var before := Merge(init);
    MergedDistinct(init);
    if k < |before| { MergedHoldsAll(init, k); }
    MergedStep(before, init, last, k);
  }

  lemma {:induction false} MergedStep(before: seq<Candidate>, cs: seq<Candidate>, c: Candidate, k: nat)
    requires before == Merge(cs) && Distinct(Endpoints(before)) && k < |MergeInto(before, c)|
    requires k < |before| ==> HoldsAllOf(before[k], cs)
    ensures HoldsAllOf(MergeInto(before, c)[k], cs + [c])
  {
    if k < |before| {
      MergedStays(before, cs, c, k);
    } else {
      MergedNew(before, cs, c, k);
    }
  }

  lemma {:induction false} MergedNew(before: seq<Candidate>, cs: seq<Candidate>, c: Candidate, k: nat)
    requires before == Merge(cs) && |before| <= k < |MergeInto(before, c)|
    ensures HoldsAllOf(MergeInto(before, c)[k], cs + [c])
  {
    assert Find(before, c.endpoint).None? && MergeInto(before, c)[k] == c;
    NotSeenBefore(cs, c);
    HoldsFirst(cs, c);
  }

  lemma {:induction false} MergedStays(before: seq<Candidate>, cs: seq<Candidate>, c: Candidate, k: nat)
    requires k < |before| && Distinct(Endpoints(before)) && HoldsAllOf(before[k], cs)
    ensures k < |MergeInto(before, c)| && HoldsAllOf(MergeInto(before, c)[k], cs + [c])
  {
    MergedAfter(before, c, k);
    HoldsMore(before[k], cs, c);
  }

  lemma {:induction false} MergedAfter(merged: seq<Candidate>, c: Candidate, k: nat)
    requires k < |merged| && Distinct(Endpoints(merged))
    ensures k < |MergeInto(merged, c)|
    ensures MergeInto(merged, c)[k] == if c.endpoint == merged[k].endpoint then Join(merged[k], c) else merged[k]
  {
    var at := Find(merged, c.endpoint);
    if at.Some? && at.value != k { assert Endpoints(merged)[k] != Endpoints(merged)[at.value]; }
  }

  lemma {:induction false} NotSeenBefore(cs: seq<Candidate>, c: Candidate)
    requires Find(Merge(cs), c.endpoint).None?
    ensures forall i :: 0 <= i < |cs| ==> cs[i].endpoint != c.endpoint
  {
    EndpointsInFirstSeenOrder(cs);
    FirstSeenDistinct(Endpoints(cs));
    forall i | 0 <= i < |cs| ensures cs[i].endpoint != c.endpoint {
      assert Endpoints(cs)[i] in Endpoints(Merge(cs));
    }
  }

  function AllEvidence(cs: seq<Candidate>): multiset<Evidence> {
    if cs == [] then multiset{} else AllEvidence(cs[..|cs| - 1]) + multiset(cs[|cs| - 1].evidence)
  }

  lemma {:induction false} AllEvidenceUpdated(cs: seq<Candidate>, at: nat, c: Candidate, more: seq<Evidence>)
    requires at < |cs| && c.evidence == cs[at].evidence + more
    ensures AllEvidence(cs[at := c]) == AllEvidence(cs) + multiset(more)
    decreases |cs|
  {
    var init := cs[..|cs| - 1];
    if at == |cs| - 1 {
      assert cs[at := c][..|cs| - 1] == init;
    } else {
      AllEvidenceUpdated(init, at, c, more);
      assert cs[at := c][..|cs| - 1] == init[at := c];
    }
  }

  /** No evidence is lost, invented or doubled. */
  lemma {:induction false} EvidenceConserved(cs: seq<Candidate>)
    ensures AllEvidence(Merge(cs)) == AllEvidence(cs)
    decreases |cs|
  {
    if cs != [] {
      var init, last := cs[..|cs| - 1], cs[|cs| - 1];
      EvidenceConserved(init);
      var at := Find(Merge(init), last.endpoint);
      if at.None? {
        assert (Merge(init) + [last])[..|Merge(init)|] == Merge(init);
      } else {
        AllEvidenceUpdated(Merge(init), at.value, Join(Merge(init)[at.value], last), last.evidence);
      }
    }
  }

  /** Candidates of distinct endpoints are left as they are, so merging again changes nothing. */
  lemma {:induction false} DistinctMergeIsIdentity(cs: seq<Candidate>)
    requires forall i, j :: 0 <= i < j < |cs| ==> cs[i].endpoint != cs[j].endpoint
    ensures Merge(cs) == cs
    decreases |cs|
  {
    if cs != [] {
      var init, last := cs[..|cs| - 1], cs[|cs| - 1];
      DistinctMergeIsIdentity(init);
      assert cs == init + [last];
    }
  }

  lemma {:induction false} MergeIdempotent(cs: seq<Candidate>)
    ensures Merge(Merge(cs)) == Merge(cs)
  {
    EndpointsInFirstSeenOrder(cs);
    var es := Endpoints(Merge(cs));
    assert forall i, j :: 0 <= i < j < |es| ==> es[i] != es[j];
    DistinctMergeIsIdentity(Merge(cs));
  }
}
