/**
 What the merge does to the evidence of a list that names an object again. `given` is what the
 objects held when the merge began, so equal objects have equal given values.
 */
module DiscoveryRepeats {
  import opened Prelude
  import opened DiscoveryMerge

  ghost predicate Agree(objects: seq<CandidateObject>, given: seq<Candidate>) {
    && |objects| == |given|
    && forall i, j :: 0 <= i < |objects| && 0 <= j < |objects| && objects[i] == objects[j] ==> given[i] == given[j]
  }

  /** What the objects of a list hold is such a list of given values. */
  lemma {:induction false} ValuesAgree(objects: seq<CandidateObject>)
    ensures Agree(objects, Values(objects))
  {
  }

  /** No candidate of this endpoint stands earlier in the list: its object is the one merged into. */
  ghost predicate IsFirst(given: seq<Candidate>, f: nat)
    requires f < |given|
  {
    forall k :: 0 <= k < f ==> given[k].endpoint != given[f].endpoint
  }

  /** Between positions f and i the object at f takes over some evidence. */
  ghost predicate Gathers(given: seq<Candidate>, f: nat, i: nat)
    requires f < i <= |given|
  {
    exists j :: f < j < i && given[j].endpoint == given[f].endpoint && given[j].evidence != []
  }

  /** The object at i is one merged into, and has taken over evidence by the time of its second turn. */
  ghost predicate CountsAgain(objects: seq<CandidateObject>, given: seq<Candidate>, i: nat)
    requires i < |objects| == |given|
  {
    exists f :: 0 <= f < i && objects[f] == objects[i] && IsFirst(given, f) && Gathers(given, f, i)
  }

  ghost predicate NoneCountsAgain(objects: seq<CandidateObject>, given: seq<Candidate>)
    requires |objects| == |given|
  {
    forall i :: 0 <= i < |objects| ==> !CountsAgain(objects, given, i)
  }

  ghost predicate Occurs(given: seq<Candidate>, e: Endpoint) {
    exists i :: 0 <= i < |given| && given[i].endpoint == e
  }

  // ---- Prefixes ----

  lemma {:induction false} AgreePrefix(objects: seq<CandidateObject>, given: seq<Candidate>, n: nat)
    requires Agree(objects, given) && n <= |objects|
    ensures Agree(objects[..n], given[..n])
  {
  }

  lemma {:induction false} FirstInPrefix(given: seq<Candidate>, n: nat, f: nat)
    requires f < n <= |given|
    ensures IsFirst(given[..n], f) <==> IsFirst(given, f)
  {
    var init := given[..n];
    assert forall k :: 0 <= k < n ==> init[k] == given[k];
  }

  lemma {:induction false} GathersInPrefix(given: seq<Candidate>, n: nat, f: nat, i: nat)
    requires f < i <= n <= |given|
    ensures Gathers(given[..n], f, i) <==> Gathers(given, f, i)
  {
    var init := given[..n];
    assert forall k :: 0 <= k < n ==> init[k] == given[k];
  }

  lemma {:induction false} AgainInPrefix(objects: seq<CandidateObject>, given: seq<Candidate>, n: nat, i: nat)
    requires i < n <= |objects| == |given|
    ensures CountsAgain(objects[..n], given[..n], i) <==> CountsAgain(objects, given, i)
  {
    forall f | 0 <= f < i
      ensures (IsFirst(given[..n], f) <==> IsFirst(given, f)) && (Gathers(given[..n], f, i) <==> Gathers(given, f, i))
    {
      FirstInPrefix(given, n, f);
      GathersInPrefix(given, n, f, i);
    }
    assert forall f :: 0 <= f < n ==> objects[..n][f] == objects[f];
  }

  /** An endpoint that occurs has a first position. */
  lemma {:induction false} FirstExists(given: seq<Candidate>, e: Endpoint) returns (f: nat)
    requires Occurs(given, e)
    ensures f < |given| && given[f].endpoint == e && IsFirst(given, f)
  {
    f := 0;
    while given[f].endpoint != e
      invariant f < |given| && forall k :: 0 <= k < f ==> given[k].endpoint != e
      decreases |given| - f
    {
      f := f + 1;
    }
  }

  // ---- Which object an endpoint is merged into ----

  lemma {:induction false} FindUpdated(cs: seq<Candidate>, at: nat, c: Candidate, e: Endpoint)
    requires at < |cs| && c.endpoint == cs[at].endpoint
    ensures Find(cs[at := c], e) == Find(cs, e)
    decreases |cs|
  {
    var n := |cs| - 1;
    if at < n {
      FindUpdated(cs[..n], at, c, e);
      assert cs[at := c][..n] == cs[..n][at := c];
    } else {
      assert cs[at := c][..n] == cs[..n];
    }
  }

  lemma {:induction false} FindAfter(merged: seq<Candidate>, c: Candidate, e: Endpoint)
    ensures Find(MergeInto(merged, c), e) ==
            if Find(merged, e).None? && e == c.endpoint then Some(|merged|) else Find(merged, e)
  {
    var at := Find(merged, c.endpoint);
    if at.Some? {
      FindUpdated(merged, at.value, Join(merged[at.value], c), e);
    } else {
      assert (merged + [c])[..|merged|] == merged;
    }
  }

  lemma {:induction false} OccursSnoc(given: seq<Candidate>, e: Endpoint)
    requires given != []
    ensures Occurs(given, e) <==> Occurs(given[..|given| - 1], e) || given[|given| - 1].endpoint == e
  {
    assert forall i :: 0 <= i < |given| - 1 ==> given[..|given| - 1][i] == given[i];
  }

  lemma {:induction false} FoundIffSeen(objects: seq<CandidateObject>, given: seq<Candidate>, e: Endpoint)
    requires |objects| == |given|
    ensures Find(MergeObjects(objects, given).result, e).Some? <==> Occurs(given, e)
    decreases |objects|
  {
    if objects != [] {
      var n := |objects| - 1;
      FoundIffSeen(objects[..n], given[..n], e);
      OccursSnoc(given, e);
      var p := MergeObjects(objects[..n], given[..n]);
      FindAfter(p.result, Current(p, objects[n], given[n]), e);
    }
  }

  /** The object merged into is the one at the first position of its endpoint. */
  lemma {:induction false} FirstIsMerged(objects: seq<CandidateObject>, given: seq<Candidate>, f: nat)
    requires f < |objects| == |given| && IsFirst(given, f)
    ensures var p := MergeObjects(objects, given);
            var at := Find(p.result, given[f].endpoint);
            at.Some? && p.merged[at.value] == objects[f]
    decreases |objects|
  {
    var n := |objects| - 1;
    var p := MergeObjects(objects[..n], given[..n]);
    FindAfter(p.result, Current(p, objects[n], given[n]), given[f].endpoint);
    if f < n {
      FirstInPrefix(given, n, f);
      FirstIsMerged(objects[..n], given[..n], f);
    } else {
      FoundIffSeen(objects[..n], given[..n], given[f].endpoint);
    }
  }

  // ---- What a candidate holds when its turn comes ----

  lemma {:induction false} ResultEvidence(objects: seq<CandidateObject>, given: seq<Candidate>, at: nat)
    requires |objects| == |given| && at < |MergeObjects(objects, given).result|
    ensures var p := MergeObjects(objects, given);
            p.result[at].evidence == EvidenceFor(p.read, p.result[at].endpoint)
  {
    ResultIsMerge(objects, given);
    MergedHoldsAll(MergeObjects(objects, given).read, at);
  }

  /** An object merged into before is read with all the evidence of its endpoint so far. */
  lemma {:induction false} OwnerReads(objects: seq<CandidateObject>, given: seq<Candidate>, f: nat,
                                      item: CandidateObject, c: Candidate)
    requires f < |objects| == |given| && IsFirst(given, f) && objects[f] == item && given[f] == c
    ensures var p := MergeObjects(objects, given);
            Current(p, item, c).evidence == EvidenceFor(p.read, c.endpoint)
  {
    FirstIsMerged(objects, given, f);
    ResultEvidence(objects, given, Find(MergeObjects(objects, given).result, c.endpoint).value);
  }

  /** Any other object is read as it was given. */
  lemma {:induction false} OthersRead(objects: seq<CandidateObject>, given: seq<Candidate>, item: CandidateObject,
                                      c: Candidate)
    requires |objects| == |given|
    requires forall f :: 0 <= f < |objects| && IsFirst(given, f) && given[f].endpoint == c.endpoint ==>
               objects[f] != item
    ensures Current(MergeObjects(objects, given), item, c) == c
  {
    var p := MergeObjects(objects, given);
    FoundIffSeen(objects, given, c.endpoint);
    if Find(p.result, c.endpoint).Some? {
      var f := FirstExists(given, c.endpoint);
      FirstIsMerged(objects, given, f);
    }
  }

  // ---- Evidence for one endpoint, after its first candidate ----

  lemma {:induction false} EvidenceBefore(cs: seq<Candidate>, f: nat)
    requires f < |cs| && IsFirst(cs, f)
    ensures EvidenceFor(cs[..f], cs[f].endpoint) == [] && EvidenceFor(cs[..f + 1], cs[f].endpoint) == cs[f].evidence
  {
    NoEvidenceFor(cs[..f], cs[f].endpoint);
    assert cs[..f + 1][..f] == cs[..f];
  }

  /** The evidence starts with the first candidate's, and is no more exactly when nothing was gathered since. */
  lemma {:induction false} EvidenceSince(cs: seq<Candidate>, f: nat)
    requires f < |cs| && IsFirst(cs, f)
    ensures cs[f].evidence <= EvidenceFor(cs, cs[f].endpoint)
    ensures EvidenceFor(cs, cs[f].endpoint) == cs[f].evidence <==> !Gathers(cs, f, |cs|)
    decreases |cs|
  {
    var n, e := |cs| - 1, cs[f].endpoint;
    if f == n {
      EvidenceBefore(cs, f);
      assert cs[..f + 1] == cs;
    } else {
      FirstInPrefix(cs, n, f);
      EvidenceSince(cs[..n], f);
      GathersInPrefix(cs, n, f, n);
      GathersLast(cs, f);
    }
  }

  lemma {:induction false} GathersLast(cs: seq<Candidate>, f: nat)
    requires f < |cs| - 1
    ensures Gathers(cs, f, |cs|) <==>
            Gathers(cs, f, |cs| - 1) || (cs[|cs| - 1].endpoint == cs[f].endpoint && cs[|cs| - 1].evidence != [])
  {
  }

  // ---- What is read, against what was given ----

  /** What was read holds at least the evidence given, and a first candidate is read as given. */
  ghost predicate ReadsAtLeast(read: seq<Candidate>, given: seq<Candidate>) {
    && |read| == |given|
    && forall i :: 0 <= i < |given| ==>
         && read[i].endpoint == given[i].endpoint && given[i].evidence <= read[i].evidence
         && (IsFirst(given, i) ==> read[i] == given[i])
  }

  lemma {:induction false} FirstRead(read: seq<Candidate>, given: seq<Candidate>, f: nat)
    requires ReadsAtLeast(read, given) && f < |given| && IsFirst(given, f)
    ensures IsFirst(read, f) && given[f].evidence <= EvidenceFor(read, given[f].endpoint)
    ensures EvidenceFor(read, given[f].endpoint) == given[f].evidence <==> !Gathers(read, f, |read|)
  {
    EvidenceSince(read, f);
  }

  /** The object is one merged into, and evidence was gathered into it. */
  ghost predicate HasGathered(objects: seq<CandidateObject>, given: seq<Candidate>, read: seq<Candidate>,
                              item: CandidateObject)
    requires |objects| == |given| == |read|
  {
    exists f :: 0 <= f < |objects| && objects[f] == item && IsFirst(given, f) && Gathers(read, f, |objects|)
  }

  lemma {:induction false} OwnersTurn(objects: seq<CandidateObject>, given: seq<Candidate>, f: nat)
    requires |objects| == |given| && ReadsAtLeast(MergeObjects(objects, given).read, given)
    requires f < |objects| && IsFirst(given, f)
    ensures var p := MergeObjects(objects, given);
            var now := Current(p, objects[f], given[f]);
            && now.endpoint == given[f].endpoint && given[f].evidence <= now.evidence
            && (now.evidence != given[f].evidence <==> Gathers(p.read, f, |objects|))
  {
    OwnerReads(objects, given, f, objects[f], given[f]);
    FirstRead(MergeObjects(objects, given).read, given, f);
  }

  lemma {:induction false} OneOwner(objects: seq<CandidateObject>, given: seq<Candidate>, read: seq<Candidate>, f: nat)
    requires |objects| == |given| == |read| && f < |objects| && IsFirst(given, f)
    requires forall g :: 0 <= g < |objects| && objects[g] == objects[f] ==> given[g] == given[f]
    ensures HasGathered(objects, given, read, objects[f]) <==> Gathers(read, f, |objects|)
  {
    forall g | 0 <= g < |objects| && objects[g] == objects[f] && IsFirst(given, g) ensures g == f {
      assert given[g].endpoint == given[f].endpoint;
    }
  }

  /** A turn reads at least the evidence given, and more exactly when the object has gathered some. */
  lemma {:induction false} TurnReads(objects: seq<CandidateObject>, given: seq<Candidate>, item: CandidateObject,
                                     c: Candidate)
    requires |objects| == |given| && ReadsAtLeast(MergeObjects(objects, given).read, given)
    requires forall f :: 0 <= f < |objects| && objects[f] == item ==> given[f] == c
    ensures var p := MergeObjects(objects, given);
            var now := Current(p, item, c);
            && now.endpoint == c.endpoint && c.evidence <= now.evidence
            && (now.evidence != c.evidence <==> HasGathered(objects, given, p.read, item))
            && (!Occurs(given, c.endpoint) ==> now == c)
  {
    if f :| 0 <= f < |objects| && objects[f] == item && IsFirst(given, f) {
      OwnersTurn(objects, given, f);
      OneOwner(objects, given, MergeObjects(objects, given).read, f);
    } else {
      OthersRead(objects, given, item, c);
    }
  }

  lemma {:induction false} AtLeastSnoc(read: seq<Candidate>, given: seq<Candidate>, now: Candidate, c: Candidate)
    requires ReadsAtLeast(read, given) && now.endpoint == c.endpoint && c.evidence <= now.evidence
    requires !Occurs(given, c.endpoint) ==> now == c
    ensures ReadsAtLeast(read + [now], given + [c])
  {
    var n, more := |given|, given + [c];
    forall i | 0 <= i < n ensures IsFirst(more, i) <==> IsFirst(given, i) {
      assert more[..n] == given;
      FirstInPrefix(more, n, i);
    }
    assert forall f :: 0 <= f < n ==> more[f] == given[f];
  }

  lemma {:induction false} TurnAtLeast(objects: seq<CandidateObject>, given: seq<Candidate>, item: CandidateObject,
                                       c: Candidate)
    requires |objects| == |given| && ReadsAtLeast(MergeObjects(objects, given).read, given)
    requires forall f :: 0 <= f < |objects| && objects[f] == item ==> given[f] == c
    ensures var p := MergeObjects(objects, given);
            ReadsAtLeast(p.read + [Current(p, item, c)], given + [c])
  {
    var p := MergeObjects(objects, given);
    TurnReads(objects, given, item, c);
    AtLeastSnoc(p.read, given, Current(p, item, c), c);
  }

  lemma {:induction false} LastAgrees(objects: seq<CandidateObject>, given: seq<Candidate>)
    requires objects != [] && Agree(objects, given)
    ensures var n := |objects| - 1;
            && given == given[..n] + [given[n]]
            && forall f :: 0 <= f < |objects[..n]| && objects[..n][f] == objects[n] ==> given[..n][f] == given[n]
  {
  }

  lemma {:induction false} LastAtLeast(objects: seq<CandidateObject>, given: seq<Candidate>)
    requires objects != [] && Agree(objects, given)
    requires var n := |objects| - 1;
             ReadsAtLeast(MergeObjects(objects[..n], given[..n]).read, given[..n])
    ensures ReadsAtLeast(MergeObjects(objects, given).read, given)
  {
    var n := |objects| - 1;
    LastAgrees(objects, given);
    TurnAtLeast(objects[..n], given[..n], objects[n], given[n]);
    ReadSnoc(objects, given);
  }

  lemma {:induction false} EveryReadAtLeast(objects: seq<CandidateObject>, given: seq<Candidate>)
    requires Agree(objects, given)
    ensures ReadsAtLeast(MergeObjects(objects, given).read, given)
    decreases |objects|
  {
    if objects != [] {
      AgreePrefix(objects, given, |objects| - 1);
      EveryReadAtLeast(objects[..|objects| - 1], given[..|objects| - 1]);
      LastAtLeast(objects, given);
    }
  }

  /** What is read at each turn so far has the evidence given, except where an object counts again. */
  ghost predicate ReadsAsGiven(objects: seq<CandidateObject>, given: seq<Candidate>, read: seq<Candidate>)
    requires |objects| == |given| == |read|
  {
    forall i :: 0 <= i < |objects| ==> (read[i].evidence != given[i].evidence <==> CountsAgain(objects, given, i))
  }

  /** Evidence read but not given has been gathered before, so it makes no difference to gathering. */
  lemma {:induction false} GathersAlike(objects: seq<CandidateObject>, given: seq<Candidate>, read: seq<Candidate>,
                                        f: nat)
    requires ReadsAtLeast(read, given) && |objects| == |given| && ReadsAsGiven(objects, given, read)
    requires Agree(objects, given) && f < |given| && IsFirst(given, f)
    ensures Gathers(read, f, |read|) <==> Gathers(given, f, |given|)
  {
    if Gathers(read, f, |read|) {
      var j :| f < j < |read| && read[j].endpoint == read[f].endpoint && read[j].evidence != [];
      if given[j].evidence == [] { EarlierGathers(objects, given, f, j); }
    }
    if Gathers(given, f, |given|) {
      var j :| f < j < |given| && given[j].endpoint == given[f].endpoint && given[j].evidence != [];
      assert given[j].evidence <= read[j].evidence;
    }
  }

  lemma {:induction false} EarlierGathers(objects: seq<CandidateObject>, given: seq<Candidate>, f: nat, j: nat)
    requires Agree(objects, given) && f < j < |given| && IsFirst(given, f) && given[j].endpoint == given[f].endpoint
    requires CountsAgain(objects, given, j)
    ensures Gathers(given, f, |given|)
  {
    var g :| 0 <= g < j && objects[g] == objects[j] && IsFirst(given, g) && Gathers(given, g, j);
    assert g == f;
  }

  /** Each turn reads the evidence given if and only if it does not count evidence again. */
  lemma {:induction false} ReadExactly(objects: seq<CandidateObject>, given: seq<Candidate>)
    requires Agree(objects, given)
    ensures |MergeObjects(objects, given).read| == |given|
    ensures ReadsAsGiven(objects, given, MergeObjects(objects, given).read)
    decreases |objects|
  {
    EveryReadAtLeast(objects, given);
    if objects != [] {
      var n := |objects| - 1;
      AgreePrefix(objects, given, n);
      EveryReadAtLeast(objects[..n], given[..n]);
      ReadExactly(objects[..n], given[..n]);
      ReadSnoc(objects, given);
      LastReadExactly(objects, given);
      EarlierReadExactly(objects, given);
    }
  }

  lemma {:induction false} EarlierReadExactly(objects: seq<CandidateObject>, given: seq<Candidate>)
    requires objects != [] && |objects| == |given|
    requires var n := |objects| - 1;
             var p := MergeObjects(objects[..n], given[..n]);
             |p.read| == n && ReadsAsGiven(objects[..n], given[..n], p.read)
    ensures var read := MergeObjects(objects, given).read;
            |read| == |objects| && forall i :: 0 <= i < |objects| - 1 ==>
              (read[i].evidence != given[i].evidence <==> CountsAgain(objects, given, i))
  {
    var n := |objects| - 1;
    var before := MergeObjects(objects[..n], given[..n]).read;
    ReadSnoc(objects, given);
    forall i | 0 <= i < n
      ensures MergeObjects(objects, given).read[i] == before[i] && given[i] == given[..n][i]
      ensures CountsAgain(objects[..n], given[..n], i) <==> CountsAgain(objects, given, i)
    {
      AgainInPrefix(objects, given, n, i);
    }
  }

  lemma {:induction false} LastReadExactly(objects: seq<CandidateObject>, given: seq<Candidate>)
    requires objects != [] && Agree(objects, given)
    requires var n := |objects| - 1;
             var p := MergeObjects(objects[..n], given[..n]);
             ReadsAtLeast(p.read, given[..n]) && ReadsAsGiven(objects[..n], given[..n], p.read)
    ensures var n := |objects| - 1;
            Current(MergeObjects(objects[..n], given[..n]), objects[n], given[n]).evidence != given[n].evidence <==>
            CountsAgain(objects, given, n)
  {
    var n := |objects| - 1;
    var before := MergeObjects(objects[..n], given[..n]).read;
    AgreePrefix(objects, given, n);
    TurnReads(objects[..n], given[..n], objects[n], given[n]);
    forall f | 0 <= f < n
      ensures objects[..n][f] == objects[f] && (IsFirst(given[..n], f) <==> IsFirst(given, f))
      ensures IsFirst(given, f) ==> (Gathers(before, f, n) <==> Gathers(given, f, n))
    {
      FirstInPrefix(given, n, f);
      GathersInPrefix(given, n, f, n);
      if IsFirst(given, f) { GathersAlike(objects[..n], given[..n], before, f); }
    }
  }

  // ---- The whole list ----

  lemma {:induction false} PrefixCompares<T>(g: seq<T>, r: seq<T>)
    requires g <= r
    ensures multiset(g) <= multiset(r) && (multiset(g) == multiset(r) <==> g == r)
  {
    assert r == g + r[|g|..];
    assert |multiset(g)| == |g| && |multiset(r)| == |r|;
  }

  ghost predicate SameEvidence(given: seq<Candidate>, read: seq<Candidate>)
    requires |given| == |read|
  {
    forall i :: 0 <= i < |given| ==> read[i].evidence == given[i].evidence
  }

  lemma {:induction false} SameEvidenceSnoc(given: seq<Candidate>, read: seq<Candidate>)
    requires given != [] && |given| == |read|
    ensures var n := |given| - 1;
            SameEvidence(given, read) <==>
            SameEvidence(given[..n], read[..n]) && given[n].evidence == read[n].evidence
  {
    var n := |given| - 1;
    assert forall i :: 0 <= i < n ==> given[..n][i] == given[i] && read[..n][i] == read[i];
  }

  lemma {:induction false} TotalsCompare(given: seq<Candidate>, read: seq<Candidate>)
    requires |given| == |read| && forall i :: 0 <= i < |given| ==> given[i].evidence <= read[i].evidence
    ensures AllEvidence(given) <= AllEvidence(read)
    ensures AllEvidence(given) == AllEvidence(read) <==> SameEvidence(given, read)
    decreases |given|
  {
    if given != [] {
      var n := |given| - 1;
      TotalsCompare(given[..n], read[..n]);
      PrefixCompares(given[n].evidence, read[n].evidence);
      SumsCompare(AllEvidence(given[..n]), AllEvidence(read[..n]), multiset(given[n].evidence),
                  multiset(read[n].evidence));
      SameEvidenceSnoc(given, read);
    }
  }

  lemma {:induction false} SumsCompare<T>(a: multiset<T>, b: multiset<T>, c: multiset<T>, d: multiset<T>)
    requires a <= b && c <= d
    ensures a + c <= b + d
    ensures a + c == b + d <==> a == b && c == d
  {
    if a + c == b + d {
      forall x ensures a[x] == b[x] && c[x] == d[x] {
        assert (a + c)[x] == a[x] + c[x] && (b + d)[x] == b[x] + d[x];
      }
    }
  }

  /** For any list the merge loses no evidence. */
  lemma {:induction false} NoEvidenceLost(objects: seq<CandidateObject>, given: seq<Candidate>)
    requires Agree(objects, given)
    ensures AllEvidence(given) <= AllEvidence(MergeObjects(objects, given).result)
  {
    EveryReadAtLeast(objects, given);
    TotalsCompare(given, MergeObjects(objects, given).read);
    ResultIsMerge(objects, given);
    EvidenceConserved(MergeObjects(objects, given).read);
  }

  /**
   The merge conserves the evidence of a list exactly when no object merged into comes back
   after evidence of its endpoint was gathered into it.
   */
  lemma {:induction false} EvidenceConservedExactly(objects: seq<CandidateObject>, given: seq<Candidate>)
    requires Agree(objects, given)
    ensures AllEvidence(MergeObjects(objects, given).result) == AllEvidence(given) <==>
            NoneCountsAgain(objects, given)
  {
    EveryReadAtLeast(objects, given);
    ReadExactly(objects, given);
    TotalsCompare(given, MergeObjects(objects, given).read);
    ResultIsMerge(objects, given);
    EvidenceConserved(MergeObjects(objects, given).read);
  }

  /** Coming back to an object after another of its endpoint conserves evidence only if that one had none. */
  lemma {:induction false} ComingBackExactly(a: CandidateObject, b: CandidateObject, va: Candidate, vb: Candidate)
    requires a != b && va.endpoint == vb.endpoint
    ensures AllEvidence(MergeObjects([a, b, a], [va, vb, va]).result) == AllEvidence([va, vb, va]) <==>
            vb.evidence == []
  {
    var objects, given := [a, b, a], [va, vb, va];
    EvidenceConservedExactly(objects, given);
    if vb.evidence != [] {
      assert objects[0] == objects[2] && IsFirst(given, 0);
      assert given[1].evidence != [] && Gathers(given, 0, 2);
      assert CountsAgain(objects, given, 2);
    } else {
      forall i | 0 <= i < 3 ensures !CountsAgain(objects, given, i) {
        assert !Gathers(given, 0, 2);
      }
    }
  }

  lemma {:induction false} AllEvidenceSnoc(cs: seq<Candidate>, c: Candidate)
    ensures AllEvidence(cs + [c]) == AllEvidence(cs) + multiset(c.evidence)
  {
    assert (cs + [c])[..|cs|] == cs;
  }

  lemma {:induction false} AllEvidenceOfOne(c: Candidate)
    ensures AllEvidence([c]) == multiset(c.evidence)
  {
    AllEvidenceSnoc([], c);
    assert [] + [c] == [c];
  }

  lemma {:induction false} AllEvidenceOfThree(c: Candidate, d: Candidate, e: Candidate)
    ensures AllEvidence([c, d, e]) == (multiset(c.evidence) + multiset(d.evidence)) + multiset(e.evidence)
  {
    AllEvidenceOfOne(c);
    AllEvidenceSnoc([c], d);
    AllEvidenceSnoc([c, d], e);
    assert [c] + [d] == [c, d];
    assert [c, d] + [e] == [c, d, e];
  }

  /** It happens: one observation each, and the list a, b, a ends with four. */
  lemma {:induction false} EvidenceCountedTwice(a: CandidateObject, b: CandidateObject)
    requires a != b
    ensures var seen := Evidence("mdns", "answered", 0.9);
            var c := Candidate(Endpoint(MdnsService, "pinout.local", None), [], [seen], 0.9, []);
            && AllEvidence([c, c, c])[seen] == 3
            && AllEvidence(MergeObjects([a, b, a], [c, c, c]).result)[seen] == 4
  {
    var seen := Evidence("mdns", "answered", 0.9);
    var c := Candidate(Endpoint(MdnsService, "pinout.local", None), [], [seen], 0.9, []);
    var m := Join(Join(c, c), Join(c, c));
    ComingBackDoubles(a, b, c, c);
    AllEvidenceOfThree(c, c, c);
    AllEvidenceOfOne(m);
    assert m.evidence == [seen, seen, seen, seen];
  }
}
