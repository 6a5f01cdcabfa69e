/** What an uncached access comes to, told link by link along `__index` and `__newindex`
    (internal/crescent/meta.go:45-79, 81-191). */
module AccessChains {
  import opened Values
  import opened RawTable
  import opened TableStore

  // ---- one object ----

  /** Table `ref` has the value v, not nil, under the key; -0 is the key +0. */
  predicate Under(s: Store, ref: nat, key: Value, v: Value) {
    var k := if key.NegZero? then Int(0) else key;
    !v.Nil? && ref in s.content && k in s.content[ref] && s.content[ref][k] == v
  }

  /** It has none. */
  predicate Lacks(s: Store, ref: nat, key: Value) {
    var k := if key.NegZero? then Int(0) else key;
    ref in s.content && k in s.content[ref] ==> s.content[ref][k].Nil?
  }

  /** The object's metatable: a table's and a userdata's own, one for all strings. */
  predicate HasMeta(s: Store, o: Value, mt: nat) {
    && mt != 0 && o.Ref?
    && match o.kind
       case TableRef => o.ref in s.meta && s.meta[o.ref] == mt
       case StringRef => s.stringMeta == mt
       case UserdataRef => o.ref in s.userdataMeta && s.userdataMeta[o.ref] == mt
       case _ => false
  }

  /** The object's metatable has the handler h under the name. */
  ghost predicate Handles(s: Store, o: Value, name: Value, h: Value) {
    exists mt: nat :: HasMeta(s, o, mt) && Under(s, mt, name, h)
  }

  /** The object has no metatable, or one without the name. */
  ghost predicate Unhandled(s: Store, o: Value, name: Value) {
    forall mt: nat :: HasMeta(s, o, mt) ==> Lacks(s, mt, name)
  }

  predicate IsA(v: Value, kind: RefKind) {
    v.Ref? && v.kind == kind
  }

  // ---- reads ----

  /** A read of o goes on in `next`: o lacks the key and its `__index` is `next`, no function. Strings
      without a metatable go on in the string library. */
  ghost predicate ReadPasses(s: Store, key: Value, o: Value, next: Value) {
    && !IsA(next, FunctionRef)
    && (|| (IsA(o, TableRef) && Lacks(s, o.ref, key) && Handles(s, o, s.indexName, next))
        || (IsA(o, UserdataRef) && Handles(s, o, s.indexName, next))
        || (IsA(o, StringRef) && s.stringMeta != 0 && Handles(s, o, s.indexName, next))
        || (IsA(o, StringRef) && s.stringMeta == 0 && s.stringLib != 0 && next == Ref(TableRef, s.stringLib)))
  }

  /** A read ends at o: with the value there, with nil, with a handler to call on it, or because it
      cannot be indexed. */
  ghost predicate ReadEnds(s: Store, key: Value, o: Value, a: Access) {
    match a
    case Found(v) =>
      || (IsA(o, TableRef) && Under(s, o.ref, key, v))
      || (IsA(o, TableRef) && Lacks(s, o.ref, key) && Unhandled(s, o, s.indexName) && v.Nil?)
      || (IsA(o, StringRef) && s.stringMeta != 0 && Unhandled(s, o, s.indexName) && v.Nil?)
    case CallGet(h, obj) =>
      && obj == o && IsA(h, FunctionRef) && Handles(s, o, s.indexName, h)
      && (IsA(o, TableRef) ==> Lacks(s, o.ref, key))
    case GetFails(e) =>
      && e == NotIndexable(o) && !IsA(o, TableRef) && Unhandled(s, o, s.indexName)
      && (IsA(o, StringRef) ==> s.stringMeta == 0 && s.stringLib == 0)
  }

  ghost predicate ReadChain(s: Store, key: Value, os: seq<Value>) {
    |os| > 0 && forall i :: 0 < i < |os| ==> ReadPasses(s, key, os[i - 1], os[i])
  }

  /** The read of obj[key] comes to a: fewer than 100 objects pass it on and the next one ends it, or
      100 pass it on and it is a loop. */
  ghost predicate ReadComesTo(s: Store, obj: Value, key: Value, a: Access) {
    exists os :: ReadChain(s, key, os) && os[0] == obj &&
      if |os| <= 100 then ReadEnds(s, key, os[|os| - 1], a) else |os| == 101 && a == GetFails(GetLoop)
  }

  // ---- writes ----

  /** A write at o goes on in `next`: a table has to lack the key, which has to be a possible one. */
  ghost predicate WritePasses(s: Store, key: Value, o: Value, next: Value) {
    && !IsA(next, FunctionRef) && Handles(s, o, s.newindexName, next)
    && (IsA(o, TableRef) ==> Lacks(s, o.ref, key) && !key.Nil? && !key.NaN?)
  }

  /** A write ends at o: stored there over an old value or for want of a handler, with a handler to call,
      or with an error. */
  ghost predicate WriteEnds(s: Store, key: Value, o: Value, t: Target) {
    match t
    case StoreIn(ref) =>
      && IsA(o, TableRef) && ref == o.ref
      && (!Lacks(s, o.ref, key) || (!key.Nil? && !key.NaN? && Unhandled(s, o, s.newindexName)))
    case CallSet(h, obj) =>
      && obj == o && IsA(h, FunctionRef) && Handles(s, o, s.newindexName, h)
      && (IsA(o, TableRef) ==> Lacks(s, o.ref, key) && !key.Nil? && !key.NaN?)
    case SetFails(e) =>
      || (IsA(o, TableRef) && Lacks(s, o.ref, key) && key.Nil? && e == BadKey(IndexIsNil))
      || (IsA(o, TableRef) && Lacks(s, o.ref, key) && key.NaN? && e == BadKey(IndexIsNaN))
      || (!IsA(o, TableRef) && Unhandled(s, o, s.newindexName) && e == NotIndexable(o))
  }

  ghost predicate WriteChain(s: Store, key: Value, os: seq<Value>) {
    |os| > 0 && forall i :: 0 < i < |os| ==> WritePasses(s, key, os[i - 1], os[i])
  }

  /** The write obj[key] = val comes to t, in the same way. */
  ghost predicate WriteComesTo(s: Store, obj: Value, key: Value, t: Target) {
    exists os :: WriteChain(s, key, os) && os[0] == obj &&
      if |os| <= 100 then WriteEnds(s, key, os[|os| - 1], t) else |os| == 101 && t == SetFails(SetLoop)
  }

  // ---- changes ----

  /** One table's map is changed as a write to it changes it, and nothing else. */
  ghost predicate WrittenIn(s: Store, ref: nat, key: Value, val: Value, s': Store) {
    && s' == s.(content := s'.content) && s'.content.Keys == s.content.Keys
    && (forall r :: r in s.content && r != ref ==> s'.content[r] == s.content[r])
    && (ref in s.content ==> StoredAs(s.content[ref], key, val, s'.content[ref]))
  }

  lemma StoreWrittenIs(s: Store, ref: nat, key: Value, val: Value)
    ensures WrittenIn(s, ref, key, val, StoreWritten(s, ref, key, val))
  {
    if ref in s.content { WrittenIs(s.content[ref], key, val); }
    hide StoredAs, Written;
  }

  /** One table loses the entries that have a dead weak side. */
  ghost predicate SweptIn(s: Store, ref: nat, weakKey: bool, weakVal: bool, gone: set<nat>, s': Store) {
    && s' == s.(content := s'.content) && s'.content.Keys == s.content.Keys
    && (forall r :: r in s.content && r != ref ==> s'.content[r] == s.content[r])
    && (ref in s.content ==>
          var m, m' := s.content[ref], s'.content[ref];
          && (forall k :: k in m' <==>
                k in m && !(weakKey && k.Ref? && k.ref in gone) && !(weakVal && m[k].Ref? && m[k].ref in gone))
          && (forall k :: k in m' ==> m'[k] == m[k]))
  }

  lemma StoreSweptIs(s: Store, ref: nat, weakKey: bool, weakVal: bool, gone: set<nat>)
    ensures SweptIn(s, ref, weakKey, weakVal, gone, StoreSwept(s, ref, weakKey, weakVal, gone))
  {
  }

  // ---- one link of the chains ----

  lemma RawIs(s: Store, ref: nat, key: Value, v: Value)
    ensures Under(s, ref, key, v) <==> !v.Nil? && Lookup(ContentOf(s, ref), key) == v
    ensures Lacks(s, ref, key) <==> Lookup(ContentOf(s, ref), key).Nil?
  {
  }

  lemma HandlerIs(s: Store, o: Value, name: Value, h: Value)
    ensures Handles(s, o, name, h) <==> !h.Nil? && FieldIn(s, MetaOfValue(s, o), name) == h
    ensures Unhandled(s, o, name) <==> FieldIn(s, MetaOfValue(s, o), name).Nil?
  {
    var mt := MetaOfValue(s, o);
    assert forall m: nat :: HasMeta(s, o, m) <==> m != 0 && m == mt;
    RawIs(s, mt, name, h);
    hide HasMeta, Under, Lacks, MetaOfValue, Lookup;
  }

  lemma ReadPassed(s: Store, key: Value, o: Value, next: Value, depth: nat)
    requires ReadPasses(s, key, o, next) && depth < 100
    ensures IndexFrom(s, o, key, depth) == IndexFrom(s, next, key, depth + 1)
  {
    HandlerIs(s, o, s.indexName, next);
    if IsA(o, TableRef) { RawIs(s, o.ref, key, Nil); }
    hide Handles, Lacks, Lookup, FieldIn;
  }

  lemma ReadEnded(s: Store, key: Value, o: Value, a: Access, depth: nat)
    requires ReadEnds(s, key, o, a) && depth < 100
    ensures IndexFrom(s, o, key, depth) == a
  {
    HandlerIs(s, o, s.indexName, if a.CallGet? then a.h else Nil);
    if IsA(o, TableRef) { RawIs(s, o.ref, key, if a.Found? then a.v else Nil); }
    hide Handles, Unhandled, Under, Lacks, Lookup, FieldIn;
  }

  /** Every read either ends at an object or is passed on. */
  lemma ReadGoesOn(s: Store, key: Value, o: Value, depth: nat) returns (next: Value)
    requires depth < 100
    ensures ReadPasses(s, key, o, next) || ReadEnds(s, key, o, IndexFrom(s, o, key, depth))
  {
    next := if IsA(o, StringRef) && s.stringMeta == 0 then Ref(TableRef, s.stringLib)
            else FieldIn(s, MetaOfValue(s, o), s.indexName);
    HandlerIs(s, o, s.indexName, FieldIn(s, MetaOfValue(s, o), s.indexName));
    if IsA(o, TableRef) { RawIs(s, o.ref, key, Lookup(ContentOf(s, o.ref), key)); }
    hide Handles, Unhandled, Under, Lacks, Lookup, FieldIn;
  }

  lemma WritePassed(s: Store, key: Value, o: Value, next: Value, depth: nat)
    requires WritePasses(s, key, o, next) && depth < 100
    ensures SetFrom(s, o, key, depth) == SetFrom(s, next, key, depth + 1)
  {
    HandlerIs(s, o, s.newindexName, next);
    if IsA(o, TableRef) { RawIs(s, o.ref, key, Nil); }
    hide Handles, Lacks, Lookup, FieldIn;
  }

  lemma WriteEnded(s: Store, key: Value, o: Value, t: Target, depth: nat)
    requires WriteEnds(s, key, o, t) && depth < 100
    ensures SetFrom(s, o, key, depth) == t
  {
    HandlerIs(s, o, s.newindexName, if t.CallSet? then t.h else Nil);
    if IsA(o, TableRef) { RawIs(s, o.ref, key, Nil); }
    hide Handles, Unhandled, Lacks, Lookup, FieldIn;
  }

  lemma WriteGoesOn(s: Store, key: Value, o: Value, depth: nat) returns (next: Value)
    requires depth < 100
    ensures WritePasses(s, key, o, next) || WriteEnds(s, key, o, SetFrom(s, o, key, depth))
  {
    next := FieldIn(s, MetaOfValue(s, o), s.newindexName);
    HandlerIs(s, o, s.newindexName, next);
    if IsA(o, TableRef) { RawIs(s, o.ref, key, Nil); }
    hide Handles, Unhandled, Lacks, Lookup, FieldIn;
  }

  // ---- whole chains ----

  lemma {:induction false} ReadFollows(s: Store, key: Value, os: seq<Value>, depth: nat)
    requires ReadChain(s, key, os) && depth + |os| <= 101
    ensures IndexFrom(s, os[0], key, depth) == IndexFrom(s, os[|os| - 1], key, depth + |os| - 1)
    decreases |os|
  {
    hide ReadPasses, IndexFrom;
    if |os| > 1 {
      ReadPassed(s, key, os[0], os[1], depth);
      ReadFollows(s, key, os[1..], depth + 1);
    }
  }

  lemma {:induction false} ReadTraced(s: Store, obj: Value, key: Value, depth: nat) returns (os: seq<Value>)
    requires depth <= 100
    ensures ReadChain(s, key, os) && os[0] == obj
    ensures if depth + |os| <= 100 then ReadEnds(s, key, os[|os| - 1], IndexFrom(s, obj, key, depth))
            else depth + |os| == 101 && IndexFrom(s, obj, key, depth) == GetFails(GetLoop)
    decreases 100 - depth
  {
    os := [obj];
    if depth < 100 {
      var next := ReadGoesOn(s, key, obj, depth);
      hide ReadEnds;
      if ReadPasses(s, key, obj, next) {
        ReadPassed(s, key, obj, next, depth);
        var rest := ReadTraced(s, next, key, depth + 1);
        hide ReadPasses, IndexFrom;
        os := [obj] + rest;
      }
    }
  }

  /** What a read comes to, link by link, is the uncached read's answer and nothing else. */
  lemma ReadIsChain(s: Store, obj: Value, key: Value, a: Access)
    ensures IndexFrom(s, obj, key, 0) == a <==> ReadComesTo(s, obj, key, a)
  {
    if ReadComesTo(s, obj, key, a) {
      var os :| ReadChain(s, key, os) && os[0] == obj &&
        if |os| <= 100 then ReadEnds(s, key, os[|os| - 1], a) else |os| == 101 && a == GetFails(GetLoop);
      ReadFollows(s, key, os, 0);
      if |os| <= 100 { ReadEnded(s, key, os[|os| - 1], a, |os| - 1); }
    }
    if IndexFrom(s, obj, key, 0) == a {
      var os := ReadTraced(s, obj, key, 0);
    }
  }

  lemma {:induction false} WriteFollows(s: Store, key: Value, os: seq<Value>, depth: nat)
    requires WriteChain(s, key, os) && depth + |os| <= 101
    ensures SetFrom(s, os[0], key, depth) == SetFrom(s, os[|os| - 1], key, depth + |os| - 1)
    decreases |os|
  {
    hide WritePasses, SetFrom;
    if |os| > 1 {
      WritePassed(s, key, os[0], os[1], depth);
      WriteFollows(s, key, os[1..], depth + 1);
    }
  }

  lemma {:induction false} WriteTraced(s: Store, obj: Value, key: Value, depth: nat) returns (os: seq<Value>)
    requires depth <= 100
    ensures WriteChain(s, key, os) && os[0] == obj
    ensures if depth + |os| <= 100 then WriteEnds(s, key, os[|os| - 1], SetFrom(s, obj, key, depth))
            else depth + |os| == 101 && SetFrom(s, obj, key, depth) == SetFails(SetLoop)
    decreases 100 - depth
  {
    os := [obj];
    if depth < 100 {
      var next := WriteGoesOn(s, key, obj, depth);
      hide WriteEnds;
      if WritePasses(s, key, obj, next) {
        WritePassed(s, key, obj, next, depth);
        var rest := WriteTraced(s, next, key, depth + 1);
        hide WritePasses, SetFrom;
        os := [obj] + rest;
      }
    }
  }

  lemma WriteIsChain(s: Store, obj: Value, key: Value, t: Target)
    ensures SetFrom(s, obj, key, 0) == t <==> WriteComesTo(s, obj, key, t)
  {
    if WriteComesTo(s, obj, key, t) {
      var os :| WriteChain(s, key, os) && os[0] == obj &&
        if |os| <= 100 then WriteEnds(s, key, os[|os| - 1], t) else |os| == 101 && t == SetFails(SetLoop);
      WriteFollows(s, key, os, 0);
      if |os| <= 100 { WriteEnded(s, key, os[|os| - 1], t, |os| - 1); }
    }
    if SetFrom(s, obj, key, 0) == t {
      var os := WriteTraced(s, obj, key, 0);
    }
  }
}
