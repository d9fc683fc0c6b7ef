/**
 Canonical JSON text behind idempotency keys: objects print with their keys sorted,
 at every depth.  Two values print alike exactly when they are equal with objects
 read as maps.
 */
module CanonicalJson {
  import opened Prelude
  import opened Json

  // ---- Sorting keys by code unit ----

  predicate Before(a: string, b: string) {
    b != "" && (a == "" || a[0] < b[0] || (a[0] == b[0] && Before(a[1..], b[1..])))
  }

  lemma {:induction false} BeforeTotal(a: string, b: string)
    ensures a == b || Before(a, b) || Before(b, a)
  {
    if a != "" && b != "" && a[0] == b[0] {
      BeforeTotal(a[1..], b[1..]);
      assert a == [a[0]] + a[1..] && b == [b[0]] + b[1..];
    }
  }

  lemma {:induction false} BeforeTransitive(a: string, b: string, c: string)
    requires Before(a, b) && Before(b, c)
    ensures Before(a, c)
  {
    if a != "" && a[0] == b[0] && b[0] == c[0] { BeforeTransitive(a[1..], b[1..], c[1..]); }
  }

  lemma {:induction false} BeforeIrreflexive(a: string)
    ensures !Before(a, a)
  {
    if a != "" { BeforeIrreflexive(a[1..]); }
  }

  ghost predicate Ascending(keys: seq<string>) {
    forall i, j :: 0 <= i < j < |keys| ==> Before(keys[i], keys[j])
  }

  function InsertKey(k: string, keys: seq<string>): (r: seq<string>)
    ensures forall x :: x in r <==> x == k || x in keys
  {
    if keys == [] || Before(k, keys[0]) then [k] + keys
    else [keys[0]] + InsertKey(k, keys[1..])
  }

  function SortKeys(keys: seq<string>): (r: seq<string>)
    ensures forall x :: x in r <==> x in keys
  {
    if keys == [] then [] else InsertKey(keys[0], SortKeys(keys[1..]))
  }

  lemma {:induction false} InsertKeyAscending(k: string, keys: seq<string>)
    requires Ascending(keys) && k !in keys
    ensures Ascending(InsertKey(k, keys))
  {
    if keys == [] {
    } else if Before(k, keys[0]) {
      forall j | 0 <= j < |keys| ensures Before(k, keys[j]) {
        if j > 0 { BeforeTransitive(k, keys[0], keys[j]); }
      }
    } else {
      BeforeTotal(k, keys[0]);
      var rest := InsertKey(k, keys[1..]);
      InsertKeyAscending(k, keys[1..]);
      forall j | 0 <= j < |rest| ensures Before(keys[0], rest[j]) {
        assert rest[j] in rest;
      }
    }
  }

  ghost predicate Distinct(keys: seq<string>) {
    forall i, j :: 0 <= i < j < |keys| ==> keys[i] != keys[j]
  }

  lemma {:induction false} SortKeysAscending(keys: seq<string>)
    requires Distinct(keys)
    ensures Ascending(SortKeys(keys))
  {
    if keys != [] {
      SortKeysAscending(keys[1..]);
      InsertKeyAscending(keys[0], SortKeys(keys[1..]));
    }
  }

  lemma {:induction false} SameElementsEmpty(s: seq<string>, t: seq<string>)
    requires forall x :: x in s <==> x in t
    ensures s == [] <==> t == []
  {
    if s != [] { assert s[0] in s; }
    if t != [] { assert t[0] in t; }
  }

  /** An ascending list is determined by its elements. */
  lemma {:induction false} AscendingUnique(s: seq<string>, t: seq<string>)
    requires Ascending(s) && Ascending(t) && forall x :: x in s <==> x in t
    ensures s == t
  {
    SameElementsEmpty(s, t);
    if s != [] {
      assert s[0] in t;
      assert t[0] in s;
      if s[0] != t[0] {
        BeforeTransitive(s[0], t[0], s[0]);
        BeforeIrreflexive(s[0]);
      }
      forall x ensures x in s[1..] <==> x in t[1..] {
        BeforeIrreflexive(s[0]);
        assert x in s <==> x == s[0] || x in s[1..];
        assert x in t <==> x == t[0] || x in t[1..];
      }
      AscendingUnique(s[1..], t[1..]);
    }
  }

  // ---- The canonical printer ----

  function Keys(ms: seq<Member>): (keys: seq<string>)
    ensures |keys| == |ms| && forall i :: 0 <= i < |ms| ==> keys[i] == ms[i].key
  {
    seq(|ms|, i requires 0 <= i < |ms| => ms[i].key)
  }

  function Lookup(ms: seq<Member>, k: string): (v: Value)
    requires k in Keys(ms)
    ensures exists i :: 0 <= i < |ms| && ms[i] == Member(k, v)
  {
    if ms[0].key == k then ms[0].value else Lookup(ms[1..], k)
  }

  function StableStringify(v: Value): string
    decreases v, 0
  {
    match v
    case Arr(es) => "[" + StableElems(es) + "]"
    case Obj(ms) => "{" + StableEntries(ms, SortKeys(Keys(ms))) + "}"
    case _ => Stringify(v)
  }

  function StableElems(es: seq<Value>): string
    decreases es, 1
  {
    if es == [] then ""
    else StableStringify(es[0]) + if |es| == 1 then "" else "," + StableElems(es[1..])
  }

  function StableEntries(ms: seq<Member>, keys: seq<string>): string
    requires forall k :: k in keys ==> k in Keys(ms)
    decreases ms, 1 + |keys|
  {
    if keys == [] then ""
    else
      Quote(keys[0]) + ":" + StableStringify(Lookup(ms, keys[0])) +
      if |keys| == 1 then "" else "," + StableEntries(ms, keys[1..])
  }

  /** What is hashed into an idempotency key; an absent owner prints as null. */
  function IdempotencyPreimage(deviceId: string, capability: string, args: seq<Member>, owner: Option<string>): string {
    StableStringify(Obj([
      Member("deviceId", Str(deviceId)),
      Member("capability", Str(capability)),
      Member("args", Obj(args)),
      Member("owner", if owner.Some? then Str(owner.value) else Null)]))
  }

  // ---- Equality up to key order ----

  /** Equal as data: arrays in order, objects as maps from keys to values. */
  ghost predicate Equivalent(v: Value, w: Value)
    decreases v
  {
    match v
    case Arr(es) =>
      w.Arr? && |es| == |w.elems| && forall i :: 0 <= i < |es| ==> Equivalent(es[i], w.elems[i])
    case Obj(ms) =>
      && w.Obj?
      && (forall k :: k in Keys(ms) <==> k in Keys(w.members))
      && (forall i, j :: 0 <= i < |ms| && 0 <= j < |w.members| && ms[i].key == w.members[j].key ==>
            Equivalent(ms[i].value, w.members[j].value))
    case _ => v == w
  }

  // ---- Canonical form: the value whose ordinary text is the canonical text ----

  ghost function Canon(v: Value): Value
    decreases v, 0
  {
    match v
    case Arr(es) => Arr(CanonElems(es))
    case Obj(ms) => Obj(CanonEntries(ms, SortKeys(Keys(ms))))
    case _ => v
  }

  ghost function CanonElems(es: seq<Value>): (r: seq<Value>)
    ensures |r| == |es|
    decreases es, 1
  {
    if es == [] then [] else [Canon(es[0])] + CanonElems(es[1..])
  }

  ghost function CanonEntries(ms: seq<Member>, keys: seq<string>): (r: seq<Member>)
    requires forall k :: k in keys ==> k in Keys(ms)
    ensures Keys(r) == keys
    decreases ms, 1 + |keys|
  {
    if keys == [] then [] else [Member(keys[0], Canon(Lookup(ms, keys[0])))] + CanonEntries(ms, keys[1..])
  }

  lemma {:induction false} CanonElemsAt(es: seq<Value>, i: nat)
    requires i < |es|
    ensures CanonElems(es)[i] == Canon(es[i])
  {
    if i > 0 { CanonElemsAt(es[1..], i - 1); }
  }

  lemma {:induction false} CanonEntriesAt(ms: seq<Member>, keys: seq<string>, i: nat)
    requires i < |keys| && forall k :: k in keys ==> k in Keys(ms)
    ensures |CanonEntries(ms, keys)| == |keys|
    ensures CanonEntries(ms, keys)[i] == Member(keys[i], Canon(Lookup(ms, keys[i])))
  {
    assert |Keys(CanonEntries(ms, keys))| == |keys|;
    if i > 0 { CanonEntriesAt(ms, keys[1..], i - 1); }
  }

  lemma {:induction false} StableIsCanonText(v: Value)
    ensures StableStringify(v) == Stringify(Canon(v))
    decreases v, 0
  {
    match v
    case Arr(es) => if es != [] { StableElemsText(es); }
    case Obj(ms) =>
      var keys := SortKeys(Keys(ms));
      if keys != [] { StableEntriesText(ms, keys); }
    case _ =>
  }

  lemma {:induction false} StableElemsText(es: seq<Value>)
    requires es != []
    ensures StableElems(es) == ElemsText(CanonElems(es))
    decreases es, 1
  {
    StableIsCanonText(es[0]);
    if |es| > 1 {
      StableElemsText(es[1..]);
      assert CanonElems(es)[1..] == CanonElems(es[1..]);
    }
  }

  lemma {:induction false} StableEntriesText(ms: seq<Member>, keys: seq<string>)
    requires keys != [] && forall k :: k in keys ==> k in Keys(ms)
    ensures |CanonEntries(ms, keys)| == |keys|
    ensures StableEntries(ms, keys) == MembersText(CanonEntries(ms, keys))
    decreases ms, 1 + |keys|
  {
    assert |Keys(CanonEntries(ms, keys))| == |keys|;
    StableIsCanonText(Lookup(ms, keys[0]));
    if |keys| > 1 {
      StableEntriesText(ms, keys[1..]);
      assert CanonEntries(ms, keys)[1..] == CanonEntries(ms, keys[1..]);
    }
  }

  lemma {:induction false} SortedKeysAscending(ms: seq<Member>)
    requires DistinctKeys(ms)
    ensures Ascending(SortKeys(Keys(ms)))
  {
    SortKeysAscending(Keys(ms));
  }

  lemma {:induction false} CanonWellFormed(v: Value)
    requires WellFormed(v)
    ensures WellFormed(Canon(v))
    decreases v
  {
    match v
    case Arr(es) =>
      forall i | 0 <= i < |es| ensures WellFormed(CanonElems(es)[i]) {
        CanonElemsAt(es, i);
        CanonWellFormed(es[i]);
      }
    case Obj(ms) =>
      var keys := SortKeys(Keys(ms));
      var cs := CanonEntries(ms, keys);
      SortedKeysAscending(ms);
      assert |Keys(cs)| == |keys|;
      forall i | 0 <= i < |cs| ensures WellFormed(cs[i].value) {
        CanonEntriesAt(ms, keys, i);
        LookupWellFormed(ms, keys[i]);
        CanonWellFormed(Lookup(ms, keys[i]));
      }
      forall i, j | 0 <= i < j < |cs| ensures cs[i].key != cs[j].key {
        assert cs[i].key == keys[i] && cs[j].key == keys[j];
        BeforeIrreflexive(keys[i]);
      }
    case _ =>
  }

  lemma {:induction false} LookupWellFormed(ms: seq<Member>, k: string)
    requires k in Keys(ms) && forall i :: 0 <= i < |ms| ==> WellFormed(ms[i].value)
    ensures WellFormed(Lookup(ms, k))
  {
    var i :| 0 <= i < |ms| && ms[i] == Member(k, Lookup(ms, k));
  }

  lemma {:induction false} LookupAt(ms: seq<Member>, i: nat)
    requires i < |ms| && DistinctKeys(ms)
    ensures ms[i].key in Keys(ms) && Lookup(ms, ms[i].key) == ms[i].value
  {
    assert Keys(ms)[i] == ms[i].key;
    var j :| 0 <= j < |ms| && ms[j] == Member(ms[i].key, Lookup(ms, ms[i].key));
  }

  lemma {:induction false} EquivalentIffCanon(v: Value, w: Value)
    requires WellFormed(v) && WellFormed(w)
    ensures Equivalent(v, w) <==> Canon(v) == Canon(w)
    decreases v
  {
    if v.Arr? && w.Arr? {
      if |v.elems| == |w.elems| {
        forall i | 0 <= i < |v.elems|
          ensures Equivalent(v.elems[i], w.elems[i]) <==> CanonElems(v.elems)[i] == CanonElems(w.elems)[i]
        {
          CanonElemsAt(v.elems, i);
          CanonElemsAt(w.elems, i);
          EquivalentIffCanon(v.elems[i], w.elems[i]);
        }
      }
    } else if v.Obj? && w.Obj? {
      var ms, ns := v.members, w.members;
      var ks, ls := SortKeys(Keys(ms)), SortKeys(Keys(ns));
      SortedKeysAscending(ms);
      SortedKeysAscending(ns);
      if Equivalent(v, w) {
        AscendingUnique(ks, ls);
        ObjectsEquivalentToCanon(ms, ns, ks);
      }
      if Canon(v) == Canon(w) {
        assert Keys(CanonEntries(ms, ks)) == Keys(CanonEntries(ns, ls));
        ObjectsCanonToEquivalent(ms, ns, ks);
      }
    }
  }

  lemma {:induction false} ObjectsEquivalentToCanon(ms: seq<Member>, ns: seq<Member>, ks: seq<string>)
    requires WellFormed(Obj(ms)) && WellFormed(Obj(ns)) && Equivalent(Obj(ms), Obj(ns))
    requires forall k :: k in ks ==> k in Keys(ms) && k in Keys(ns)
    ensures CanonEntries(ms, ks) == CanonEntries(ns, ks)
    decreases ms, |ks|
  {
    if ks != [] {
      var a, b := Lookup(ms, ks[0]), Lookup(ns, ks[0]);
      var i :| 0 <= i < |ms| && ms[i] == Member(ks[0], a);
      var j :| 0 <= j < |ns| && ns[j] == Member(ks[0], b);
      EquivalentIffCanon(ms[i].value, ns[j].value);
      ObjectsEquivalentToCanon(ms, ns, ks[1..]);
    }
  }

  lemma {:induction false} ObjectsCanonToEquivalent(ms: seq<Member>, ns: seq<Member>, ks: seq<string>)
    requires WellFormed(Obj(ms)) && WellFormed(Obj(ns))
    requires forall k :: (k in ks <==> k in Keys(ms)) && (k in ks <==> k in Keys(ns))
    requires CanonEntries(ms, ks) == CanonEntries(ns, ks)
    ensures Equivalent(Obj(ms), Obj(ns))
    decreases ms, |ks|
  {
    forall i, j | 0 <= i < |ms| && 0 <= j < |ns| && ms[i].key == ns[j].key
      ensures Equivalent(ms[i].value, ns[j].value)
    {
      LookupAt(ms, i);
      LookupAt(ns, j);
      var p :| 0 <= p < |ks| && ks[p] == ms[i].key;
      CanonEntriesAt(ms, ks, p);
      CanonEntriesAt(ns, ks, p);
      EquivalentIffCanon(ms[i].value, ns[j].value);
    }
  }

  // ---- Main results ----

  /** The canonical text is the same exactly when the values are, up to key order. */
  lemma {:induction false} StableStringifyCanonical(v: Value, w: Value)
    requires WellFormed(v) && WellFormed(w)
    ensures StableStringify(v) == StableStringify(w) <==> Equivalent(v, w)
  {
    StableIsCanonText(v);
    StableIsCanonText(w);
    CanonWellFormed(v);
    CanonWellFormed(w);
    EquivalentIffCanon(v, w);
    if Stringify(Canon(v)) == Stringify(Canon(w)) {
      StringifyInjective(Canon(v), Canon(w));
    }
  }

  /** Canonical text is itself JSON for an equal value. */
  lemma {:induction false} ParseStable(v: Value)
    requires WellFormed(v)
    ensures Parse(StableStringify(v)).Some? && WellFormed(Parse(StableStringify(v)).value)
    ensures Equivalent(v, Parse(StableStringify(v)).value)
  {
    StableIsCanonText(v);
    CanonWellFormed(v);
    ParseStringify(Canon(v));
    CanonIdempotent(v);
    EquivalentIffCanon(v, Canon(v));
  }

  lemma {:induction false} CanonIdempotent(v: Value)
    requires WellFormed(v)
    ensures Canon(Canon(v)) == Canon(v)
    decreases v
  {
    match v
    case Arr(es) =>
      forall i | 0 <= i < |es| ensures CanonElems(CanonElems(es))[i] == CanonElems(es)[i] {
        CanonElemsAt(es, i);
        CanonElemsAt(CanonElems(es), i);
        CanonIdempotent(es[i]);
      }
    case Obj(ms) =>
      CanonWellFormed(v);
      var ks := SortKeys(Keys(ms));
      var cs := CanonEntries(ms, ks);
      SortedKeysAscending(ms);
      SortedKeysAscending(cs);
      AscendingUnique(SortKeys(Keys(cs)), ks);
      var ds := CanonEntries(cs, ks);
      assert |Keys(cs)| == |ks| && |Keys(ds)| == |ks|;
      forall i | 0 <= i < |ks| ensures ds[i] == cs[i] {
        CanonEntriesAt(cs, ks, i);
        CanonEntriesAt(ms, ks, i);
        LookupAt(cs, i);
        CanonIdempotent(Lookup(ms, ks[i]));
      }
    case _ =>
  }

  /** The hashed text agrees exactly when device, capability, owner and arguments agree. */
  lemma {:induction false} PreimageAgreesExactly(d: string, c: string, args: seq<Member>, o: Option<string>,
                              d': string, c': string, args': seq<Member>, o': Option<string>)
    requires WellFormed(Obj(args)) && WellFormed(Obj(args'))
    ensures IdempotencyPreimage(d, c, args, o) == IdempotencyPreimage(d', c', args', o') <==>
            d == d' && c == c' && o == o' && Equivalent(Obj(args), Obj(args'))
  {
    var ms := PreimageMembers(d, c, args, o);
    var ns := PreimageMembers(d', c', args', o');
    PreimageWellFormed(d, c, args, o);
    PreimageWellFormed(d', c', args', o');
    StableStringifyCanonical(Obj(ms), Obj(ns));
    PreimageMembersAgree(d, c, args, o, d', c', args', o');
  }

  lemma {:induction false} PreimageMembersAgree(d: string, c: string, args: seq<Member>, o: Option<string>,
                             d': string, c': string, args': seq<Member>, o': Option<string>)
    requires WellFormed(Obj(args)) && WellFormed(Obj(args'))
    ensures Equivalent(Obj(PreimageMembers(d, c, args, o)), Obj(PreimageMembers(d', c', args', o'))) <==>
            d == d' && c == c' && o == o' && Equivalent(Obj(args), Obj(args'))
  {
    var ms := PreimageMembers(d, c, args, o);
    var ns := PreimageMembers(d', c', args', o');
    PreimageWellFormed(d, c, args, o);
    FourMembersEquivalent(ms, ns);
    assert Equivalent(ms[3].value, ns[3].value) <==> o == o';
  }

  lemma {:induction false} FourMembersEquivalent(ms: seq<Member>, ns: seq<Member>)
    requires |ms| == |ns| == 4 && DistinctKeys(ms) && forall i :: 0 <= i < 4 ==> ms[i].key == ns[i].key
    ensures Equivalent(Obj(ms), Obj(ns)) <==>
            && Equivalent(ms[0].value, ns[0].value) && Equivalent(ms[1].value, ns[1].value)
            && Equivalent(ms[2].value, ns[2].value) && Equivalent(ms[3].value, ns[3].value)
  {
    SameKeysEquivalent(ms, ns);
  }

  /** Objects listing the same keys in the same places compare member by member. */
  lemma {:induction false} SameKeysEquivalent(ms: seq<Member>, ns: seq<Member>)
    requires |ms| == |ns| && DistinctKeys(ms) && forall i :: 0 <= i < |ms| ==> ms[i].key == ns[i].key
    ensures Equivalent(Obj(ms), Obj(ns)) <==>
            forall i :: 0 <= i < |ms| ==> Equivalent(ms[i].value, ns[i].value)
  {
    assert Keys(ms) == Keys(ns);
  }

  ghost function PreimageMembers(d: string, c: string, args: seq<Member>, o: Option<string>): (ms: seq<Member>)
    ensures IdempotencyPreimage(d, c, args, o) == StableStringify(Obj(ms))
  {
    [Member("deviceId", Str(d)), Member("capability", Str(c)), Member("args", Obj(args)),
     Member("owner", if o.Some? then Str(o.value) else Null)]
  }

  lemma {:induction false} PreimageWellFormed(d: string, c: string, args: seq<Member>, o: Option<string>)
    requires WellFormed(Obj(args))
    ensures WellFormed(Obj(PreimageMembers(d, c, args, o)))
  {
    var ms := PreimageMembers(d, c, args, o);
    assert |ms[0].key| == 8 && |ms[1].key| == 10 && |ms[2].key| == 4 && |ms[3].key| == 5;
  }
}
