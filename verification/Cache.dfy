/** Several cache services on one Redis keyspace. */
module Cache {
  import opened Options

  /** JSON.parse and the schema's safeParse, seen together: what a stored text
      turns out to be. */
  datatype Verdict = Sound | BadJson | BadSchema

  datatype GetResult = Absent | Corrupt(reason: Verdict) | Value(raw: string)

  function Prefix(namespace: string): string { namespace + ":" }

  function PrefixKey(namespace: string, key: string): string { Prefix(namespace) + key }

  function Judged(raw: Option<string>, judge: string -> Verdict): GetResult {
    match raw
    case None => Absent
    case Some(text) => if judge(text) == Sound then Value(text) else Corrupt(judge(text))
  }

  // ---------- The steps ----------

  /** A get is two steps: Read, and for a corrupt entry Heal, its del(), which
      may fail and is then only logged. `id` names the get under way. */
  datatype Op =
    | Set(key: string, raw: string)
    | Del(key: string)
    | Expire(key: string)
    | Read(id: nat, key: string, judge: string -> Verdict)
    | Heal(id: nat, key: string, done: bool)

  function Lookup(store: map<string, string>, key: string): Option<string> {
    if key in store then Some(store[key]) else None
  }

  /** What an operation does to the entry its key stands for. */
  function Effect(store: map<string, string>, key: string, op: Op): map<string, string> {
    match op
    case Set(_, raw) => store[key := raw]
    case Del(_) => store - {key}
    case Expire(_) => store - {key}
    case Read(_, _, _) => store
    case Heal(_, _, done) => if done then store - {key} else store
  }

  /** A get's answer to its caller. */
  function Answered(raw: Option<string>, op: Op): Option<GetResult> {
    if op.Read? then Some(Judged(raw, op.judge)) else None
  }

  predicate FindsCorrupt(raw: Option<string>, op: Op) { op.Read? && Judged(raw, op.judge).Corrupt? }

  /** The gets that still have to heal: a read that found a corrupt entry joins
      them, a heal leaves them. */
  function GetsAfter<T>(healing: map<nat, T>, raw: Option<string>, op: Op, mine: T): map<nat, T> {
    if FindsCorrupt(raw, op) then healing[op.id := mine]
    else if op.Heal? then healing - {op.id}
    else healing
  }

  /** A private map, and the gets that still have to heal a key. */
  datatype Private = Private(store: map<string, string>, healing: map<nat, string>)

  /** One step on a private map; None where it cannot happen. */
  function PrivateStep(p: Private, op: Op): Option<Private> {
    if op.Read? && op.id in p.healing then None
    else if op.Heal? && !(op.id in p.healing && p.healing[op.id] == op.key) then None
    else Some(Private(
      Effect(p.store, op.key, op),
      GetsAfter(p.healing, Lookup(p.store, op.key), op, op.key)))
  }

  /** The shared keyspace, and the gets under way with their service. */
  datatype Shared = Shared(store: map<string, string>, healing: map<nat, (string, string)>)

  datatype Event = Event(namespace: string, op: Op)

  /** One service's step on the shared keyspace, through its prefix. */
  function SharedStep(s: Shared, e: Event): Option<Shared> {
    var ns, op := e.namespace, e.op;
    var full := PrefixKey(ns, op.key);
    if op.Read? && op.id in s.healing then None
    else if op.Heal? && !(op.id in s.healing && s.healing[op.id] == (ns, op.key)) then None
    else Some(Shared(
      Effect(s.store, full, op),
      GetsAfter(s.healing, Lookup(s.store, full), op, (ns, op.key))))
  }

  // ---------- When keyspaces are disjoint ----------

  /** Neither prefix begins with the other. */
  predicate Apart(a: string, b: string) { !(Prefix(a) <= Prefix(b)) && !(Prefix(b) <= Prefix(a)) }

  lemma SameFront(a: string, b: string, x: string, y: string)
    requires a + x == b + y && |a| <= |b|
    ensures a <= b
  {
    assert b == (b + y)[..|b|] == (a + x)[..|b|];
    assert a == (a + x)[..|a|] == b[..|a|];
  }

  /** Two services' keys never meet exactly when their prefixes are apart. */
  lemma KeyspacesDisjointExactly(a: string, b: string)
    ensures Apart(a, b) <==> forall k, l :: PrefixKey(a, k) != PrefixKey(b, l)
  {
    if Apart(a, b) {
      forall k, l ensures PrefixKey(a, k) != PrefixKey(b, l) {
        if PrefixKey(a, k) == PrefixKey(b, l) {
          if |Prefix(a)| <= |Prefix(b)| {
            SameFront(Prefix(a), Prefix(b), k, l);
          } else {
            SameFront(Prefix(b), Prefix(a), l, k);
          }
          assert false;
        }
      }
    } else if Prefix(a) <= Prefix(b) {
      assert PrefixKey(a, Prefix(b)[|Prefix(a)|..]) == PrefixKey(b, "");
    } else {
      assert PrefixKey(b, Prefix(a)[|Prefix(b)|..]) == PrefixKey(a, "");
    }
  }

  /** Distinct namespaces without a colon are apart. */
  lemma PlainNamespacesApart(a: string, b: string)
    requires a != b && ':' !in a && ':' !in b
    ensures Apart(a, b)
  {
    if Prefix(a) <= Prefix(b) { ColonAtEnd(a, b); assert false; }
    if Prefix(b) <= Prefix(a) { ColonAtEnd(b, a); assert false; }
  }

  lemma ColonAtEnd(a: string, b: string)
    requires ':' !in b && Prefix(a) <= Prefix(b)
    ensures a == b
  {
    assert Prefix(b)[|a|] == Prefix(a)[|a|] == ':';
    assert forall i :: 0 <= i < |b| ==> Prefix(b)[i] == b[i] && b[i] in b;
    assert Prefix(b)[..|a|] == Prefix(a)[..|a|];
  }

  // ---------- The shared keyspace refines private maps ----------

  lemma PrefixKeyInjective(ns: string, k: string, l: string)
    ensures PrefixKey(ns, k) == PrefixKey(ns, l) <==> k == l
    ensures PrefixKey(ns, k)[|Prefix(ns)|..] == k
  {
    assert PrefixKey(ns, k)[|Prefix(ns)|..] == k;
    assert PrefixKey(ns, l)[|Prefix(ns)|..] == l;
  }

  ghost function OwnKeys(store: map<string, string>, ns: string): (keys: set<string>) {
    set full | full in store && Prefix(ns) <= full :: full[|Prefix(ns)|..]
  }

  lemma OwnKeysAre(store: map<string, string>, ns: string)
    ensures forall k :: k in OwnKeys(store, ns) <==> PrefixKey(ns, k) in store
  {
    forall k ensures k in OwnKeys(store, ns) <==> PrefixKey(ns, k) in store {
      PrefixKeyInjective(ns, k, k);
      if full :| full in store && Prefix(ns) <= full && full[|Prefix(ns)|..] == k {
        assert full == PrefixKey(ns, k);
      }
    }
  }

  ghost function OwnStore(store: map<string, string>, ns: string): map<string, string> {
    OwnKeysAre(store, ns);
    map k | k in OwnKeys(store, ns) :: store[PrefixKey(ns, k)]
  }

  /** One service's view: its own keys without the prefix, its own gets. */
  ghost function View(s: Shared, ns: string): Private {
    Private(
      OwnStore(s.store, ns),
      OwnGets(s.healing, ns))
  }

  ghost function OwnGets(healing: map<nat, (string, string)>, ns: string): map<nat, string> {
    map id | id in healing && healing[id].0 == ns :: healing[id].1
  }

  /** The step can happen as far as the gets under way go. */
  predicate MayGet(healing: map<nat, (string, string)>, ns: string, op: Op) {
    && (op.Read? ==> op.id !in healing)
    && (op.Heal? ==> op.id in healing && healing[op.id] == (ns, op.key))
  }

  lemma GetsAtHome(healing: map<nat, (string, string)>, raw: Option<string>, op: Op, ns: string)
    requires MayGet(healing, ns, op)
    ensures OwnGets(GetsAfter(healing, raw, op, (ns, op.key)), ns)
         == GetsAfter(OwnGets(healing, ns), raw, op, op.key)
  {}

  lemma GetsElsewhere(healing: map<nat, (string, string)>, raw: Option<string>, op: Op, actor: string, ns: string)
    requires MayGet(healing, actor, op) && actor != ns
    ensures OwnGets(GetsAfter(healing, raw, op, (actor, op.key)), ns) == OwnGets(healing, ns)
  {}

  lemma OwnLookup(store: map<string, string>, ns: string, key: string)
    ensures Lookup(OwnStore(store, ns), key) == Lookup(store, PrefixKey(ns, key))
  {
    OwnKeysAre(store, ns);
  }

  lemma SameStore(a: map<string, string>, b: map<string, string>)
    requires forall k :: Lookup(a, k) == Lookup(b, k)
    ensures a == b
  {
    forall k ensures (k in a <==> k in b) && (k in a ==> a[k] == b[k]) {
      assert Lookup(a, k) == Lookup(b, k);
    }
  }

  lemma EffectElsewhere(store: map<string, string>, full: string, op: Op, ns: string)
    requires forall k :: PrefixKey(ns, k) != full
    ensures OwnStore(Effect(store, full, op), ns) == OwnStore(store, ns)
  {
    var after := Effect(store, full, op);
    forall k ensures Lookup(OwnStore(after, ns), k) == Lookup(OwnStore(store, ns), k) {
      OwnLookup(store, ns, k);
      OwnLookup(after, ns, k);
      assert PrefixKey(ns, k) != full;
    }
    SameStore(OwnStore(after, ns), OwnStore(store, ns));
  }

  lemma EffectAtHome(store: map<string, string>, ns: string, op: Op)
    ensures OwnStore(Effect(store, PrefixKey(ns, op.key), op), ns) == Effect(OwnStore(store, ns), op.key, op)
  {
    var after := Effect(store, PrefixKey(ns, op.key), op);
    forall k ensures Lookup(OwnStore(after, ns), k) == Lookup(Effect(OwnStore(store, ns), op.key, op), k) {
      OwnLookup(store, ns, k);
      OwnLookup(after, ns, k);
      PrefixKeyInjective(ns, k, op.key);
    }
    SameStore(OwnStore(after, ns), Effect(OwnStore(store, ns), op.key, op));
  }

  /** No set, del, expiry or self-heal touches another namespace: every other
      service's view is unchanged. */
  lemma OthersUntouched(s: Shared, e: Event, ns: string)
    requires SharedStep(s, e).Some? && Apart(e.namespace, ns)
    ensures View(SharedStep(s, e).value, ns) == View(s, ns)
  {
    KeyspacesDisjointExactly(e.namespace, ns);
    var full := PrefixKey(e.namespace, e.op.key);
    forall k ensures PrefixKey(ns, k) != full {
      assert PrefixKey(e.namespace, e.op.key) != PrefixKey(ns, k);
    }
    EffectElsewhere(s.store, full, e.op, ns);
    GetsElsewhere(s.healing, Lookup(s.store, full), e.op, e.namespace, ns);
  }

  /** The service that acts sees exactly what its own private map would do, and
      its gets answer as the private map's would. */
  lemma OwnStep(s: Shared, e: Event)
    requires SharedStep(s, e).Some?
    ensures PrivateStep(View(s, e.namespace), e.op) == Some(View(SharedStep(s, e).value, e.namespace))
    ensures Answered(Lookup(View(s, e.namespace).store, e.op.key), e.op)
         == Answered(Lookup(s.store, PrefixKey(e.namespace, e.op.key)), e.op)
  {
    OwnLookup(s.store, e.namespace, e.op.key);
    EffectAtHome(s.store, e.namespace, e.op);
    GetsAtHome(s.healing, Lookup(s.store, PrefixKey(e.namespace, e.op.key)), e.op, e.namespace);
  }

  /** Isolation holds for exactly the namespaces that are apart: where prefixes
      overlap, some write of one service shows in the other's view. */
  lemma IsolationExactly(a: string, b: string)
    ensures Apart(a, b) <==>
            forall s, op | SharedStep(s, Event(a, op)).Some? :: View(SharedStep(s, Event(a, op)).value, b) == View(s, b)
  {
    if Apart(a, b) {
      forall s, op | SharedStep(s, Event(a, op)).Some?
        ensures View(SharedStep(s, Event(a, op)).value, b) == View(s, b)
      {
        OthersUntouched(s, Event(a, op), b);
      }
    } else {
      KeyspacesDisjointExactly(a, b);
      var k, l :| PrefixKey(a, k) == PrefixKey(b, l);
      var s, op := Shared(map[], map[]), Set(k, "");
      var s' := SharedStep(s, Event(a, op)).value;
      OwnLookup(s.store, b, l);
      OwnLookup(s'.store, b, l);
      assert Lookup(View(s', b).store, l) != Lookup(View(s, b).store, l);
    }
  }

  // ---------- Whole runs ----------

  /** A run of the shared keyspace: its last state and every get's answer, or
      None when some step cannot happen. */
  function Play(s: Shared, es: seq<Event>): Option<(Shared, seq<Option<GetResult>>)>
    decreases |es|
  {
    if es == [] then Some((s, []))
    else
      var next := SharedStep(s, es[0]);
      if next.None? then None
      else
        var rest := Play(next.value, es[1..]);
        if rest.None? then None
        else
          var answer := Answered(Lookup(s.store, PrefixKey(es[0].namespace, es[0].op.key)), es[0].op);
          Some((rest.value.0, [answer] + rest.value.1))
  }

  /** The same for one service alone, on its private map. */
  function PlayAlone(p: Private, ops: seq<Op>): Option<(Private, seq<Option<GetResult>>)>
    decreases |ops|
  {
    if ops == [] then Some((p, []))
    else
      var next := PrivateStep(p, ops[0]);
      if next.None? then None
      else
        var rest := PlayAlone(next.value, ops[1..]);
        if rest.None? then None
        else Some((rest.value.0, [Answered(Lookup(p.store, ops[0].key), ops[0])] + rest.value.1))
  }

  function OpsOf(es: seq<Event>, ns: string): seq<Op> {
    if es == [] then []
    else (if es[0].namespace == ns then [es[0].op] else []) + OpsOf(es[1..], ns)
  }

  function AnswersOf(es: seq<Event>, answers: seq<Option<GetResult>>, ns: string): seq<Option<GetResult>>
    requires |es| == |answers|
    decreases |es|
  {
    if es == [] then []
    else (if es[0].namespace == ns then [answers[0]] else []) + AnswersOf(es[1..], answers[1..], ns)
  }

  /** A run is its first step and the run of the rest. */
  lemma PlayHead(s: Shared, es: seq<Event>)
    requires es != [] && Play(s, es).Some?
    ensures SharedStep(s, es[0]).Some?
    ensures var rest := Play(SharedStep(s, es[0]).value, es[1..]);
            && rest.Some?
            && Play(s, es).value.0 == rest.value.0
            && Play(s, es).value.1
               == [Answered(Lookup(s.store, PrefixKey(es[0].namespace, es[0].op.key)), es[0].op)] + rest.value.1
  {}

  lemma {:induction false} AnswerPerEvent(s: Shared, es: seq<Event>)
    requires Play(s, es).Some?
    ensures |Play(s, es).value.1| == |es|
    decreases |es|
  {
    if es != [] {
      PlayHead(s, es);
      AnswerPerEvent(SharedStep(s, es[0]).value, es[1..]);
    }
  }

  lemma PlayAloneCons(p: Private, op: Op, ops: seq<Op>, p': Private, last: Private, answers: seq<Option<GetResult>>)
    requires PrivateStep(p, op) == Some(p') && PlayAlone(p', ops) == Some((last, answers))
    ensures PlayAlone(p, [op] + ops) == Some((last, [Answered(Lookup(p.store, op.key), op)] + answers))
  {
    assert ([op] + ops)[1..] == ops;
  }

  /** The shared cache refines private caches: in any interleaving of any number
      of services, a service whose prefix is apart from all the others' sees the
      states and the answers of a private map on which it acted alone. */
  lemma {:induction false} SharedRefinesPrivate(s: Shared, es: seq<Event>, ns: string)
    requires Play(s, es).Some?
    requires forall e :: e in es && e.namespace != ns ==> Apart(e.namespace, ns)
    ensures |Play(s, es).value.1| == |es|
    ensures PlayAlone(View(s, ns), OpsOf(es, ns))
         == Some((View(Play(s, es).value.0, ns), AnswersOf(es, Play(s, es).value.1, ns)))
    decreases |es|
  {
    if es != [] {
      var e, tail := es[0], es[1..];
      PlayHead(s, es);
      AnswerPerEvent(s, es);
      var next := SharedStep(s, e).value;
      SharedRefinesPrivate(next, tail, ns);
      var Some(rest) := Play(next, tail);
      assert e in es;
      assert Play(s, es).value.1[1..] == rest.1;
      if e.namespace == ns {
        OwnStep(s, e);
        PlayAloneCons(View(s, ns), e.op, OpsOf(tail, ns), View(next, ns), View(rest.0, ns),
                      AnswersOf(tail, rest.1, ns));
      } else {
        OthersUntouched(s, e, ns);
        assert [] + OpsOf(tail, ns) == OpsOf(tail, ns);
        assert [] + AnswersOf(tail, rest.1, ns) == AnswersOf(tail, rest.1, ns);
      }
    }
  }

  // ---------- What a self-heal removes ----------

  /** The last thing a run of operations leaves at a key: nothing if it never
      touches it, otherwise the text written or the absence. */
  function LastWrite(ops: seq<Op>, key: string): Option<Option<string>> {
    if ops == [] then None
    else
      var op, front := ops[|ops| - 1], ops[..|ops| - 1];
      if op.key != key then LastWrite(front, key)
      else match op
        case Set(_, raw) => Some(Some(raw))
        case Del(_) => Some(None)
        case Expire(_) => Some(None)
        case Read(_, _, _) => LastWrite(front, key)
        case Heal(_, _, done) => if done then Some(None) else LastWrite(front, key)
  }

  lemma {:induction false} LastWriteCons(op: Op, ops: seq<Op>, key: string)
    ensures LastWrite([op] + ops, key)
         == if LastWrite(ops, key).Some? then LastWrite(ops, key) else LastWrite([op], key)
    decreases |ops|
  {
    if ops == [] {
      assert [op] + ops == [op];
    } else {
      assert ([op] + ops)[..|ops|] == [op] + ops[..|ops| - 1];
      LastWriteCons(op, ops[..|ops| - 1], key);
    }
  }

  lemma {:induction false} StoreAfter(p: Private, ops: seq<Op>, key: string)
    requires PlayAlone(p, ops).Some?
    ensures Lookup(PlayAlone(p, ops).value.0.store, key)
         == match LastWrite(ops, key)
            case None => Lookup(p.store, key)
            case Some(last) => last
    decreases |ops|
  {
    if ops != [] {
      assert ops == [ops[0]] + ops[1..];
      LastWriteCons(ops[0], ops[1..], key);
      StoreAfter(PrivateStep(p, ops[0]).value, ops[1..], key);
      assert [ops[0]][..0] == [];
    }
  }

  /** A read changes nothing, answers with what is stored there, and has a
      self-heal to follow exactly when that is corrupt. */
  lemma ReadExactly(p: Private, id: nat, key: string, judge: string -> Verdict, done: bool)
    requires id !in p.healing
    ensures PrivateStep(p, Read(id, key, judge)).Some? && PrivateStep(p, Read(id, key, judge)).value.store == p.store
    ensures Answered(Lookup(p.store, key), Read(id, key, judge)) == Some(
              if key !in p.store then Absent
              else if judge(p.store[key]) == Sound then Value(p.store[key])
              else Corrupt(judge(p.store[key])))
    ensures PrivateStep(PrivateStep(p, Read(id, key, judge)).value, Heal(id, key, done)).Some? <==>
            key in p.store && judge(p.store[key]) != Sound
  {}

  /** A self-heal is not atomic with its read: it removes a valid entry exactly
      when the last write to the key in between set one. */
  lemma HealRemovesValidExactly(p: Private, id: nat, key: string, judge: string -> Verdict, ops: seq<Op>, q: Private)
    requires FindsCorrupt(Lookup(p.store, key), Read(id, key, judge))
    requires PrivateStep(p, Read(id, key, judge)).Some?
    requires PlayAlone(PrivateStep(p, Read(id, key, judge)).value, ops).Some?
    requires q == PlayAlone(PrivateStep(p, Read(id, key, judge)).value, ops).value.0
    requires PrivateStep(q, Heal(id, key, true)).Some?
    ensures Judged(Lookup(q.store, key), judge).Value? <==>
            && LastWrite(ops, key).Some?
            && LastWrite(ops, key).value.Some?
            && judge(LastWrite(ops, key).value.value) == Sound
    ensures Lookup(PrivateStep(q, Heal(id, key, true)).value.store, key) == None
  {
    StoreAfter(PrivateStep(p, Read(id, key, judge)).value, ops, key);
  }

  /** One such run: the corrupt read, a fresh set, and the heal that drops it. */
  lemma HealDropsFreshValue(key: string, bad: string, good: string, judge: string -> Verdict)
    requires judge(bad) != Sound && judge(good) == Sound
    ensures PlayAlone(Private(map[key := bad], map[]), [Read(0, key, judge), Set(key, good), Heal(0, key, true)])
         == Some((Private(map[], map[]), [Some(Corrupt(judge(bad))), None, None]))
  {
    var p0 := Private(map[key := bad], map[]);
    var p1 := Private(map[key := bad], map[0 := key]);
    var p2 := Private(map[key := good], map[0 := key]);
    var p3 := Private(map[], map[]);
    assert PrivateStep(p0, Read(0, key, judge)) == Some(p1);
    assert p1.store[key := good] == p2.store;
    assert PrivateStep(p1, Set(key, good)) == Some(p2);
    assert p2.store - {key} == p3.store && p2.healing - {0} == p3.healing;
    assert PrivateStep(p2, Heal(0, key, true)) == Some(p3);
    var none: seq<Option<GetResult>> := [];
    PlayAloneCons(p2, Heal(0, key, true), [], p3, p3, none);
    PlayAloneCons(p1, Set(key, good), [Heal(0, key, true)] + [], p2, p3, [None] + none);
    PlayAloneCons(p0, Read(0, key, judge), [Set(key, good)] + ([Heal(0, key, true)] + []), p1, p3,
                  [None] + ([None] + none));
    assert [Read(0, key, judge)] + ([Set(key, good)] + ([Heal(0, key, true)] + []))
        == [Read(0, key, judge), Set(key, good), Heal(0, key, true)];
    assert [Some(Corrupt(judge(bad)))] + ([None] + ([None] + none)) == [Some(Corrupt(judge(bad))), None, None];
  }
}

/** The service as the object it is, over the store it changes. */
module CacheService {
  import opened Options
  import opened Cache

  class Redis {
    var entries: map<string, string>

    constructor ()
      ensures entries == map[]
    {
      entries := map[];
    }
  }

  /** JSON.parse, then the optional schema. */
  function JudgeOf<J>(parse: string -> Option<J>, schema: Option<J -> bool>): string -> Verdict {
    (raw: string) =>
      var parsed := parse(raw);
      if parsed.None? then BadJson
      else if schema.Some? && !schema.value(parsed.value) then BadSchema
      else Sound
  }

  class RedisCacheService {
    const redis: Redis
    const namespace: string

    constructor (redis: Redis, namespace: string)
      ensures this.redis == redis && this.namespace == namespace
    {
      this.redis, this.namespace := redis, namespace;
    }

    /** The two steps of a get run without interruption; `delWorks` is whether
        Redis carries out the self-healing del(). */
    method Get<J>(key: string, parse: string -> Option<J>, schema: Option<J -> bool>, delWorks: bool)
        returns (r: GetResult)
      modifies redis
      ensures r == Judged(Lookup(old(redis.entries), PrefixKey(namespace, key)), JudgeOf(parse, schema))
      ensures var entries, full := old(redis.entries), namespace + ":" + key;
              && (r == Absent <==> full !in entries)
              && (r == Corrupt(BadJson) <==> full in entries && parse(entries[full]).None?)
              && (r == Corrupt(BadSchema) <==>
                    && full in entries
                    && parse(entries[full]).Some?
                    && schema.Some?
                    && !schema.value(parse(entries[full]).value))
              && (r.Corrupt? ==> r == Corrupt(BadJson) || r == Corrupt(BadSchema))
              && (r.Value? ==> full in entries && r == Value(entries[full]))
              && redis.entries == if r.Corrupt? && delWorks then entries - {full} else entries
    {
      var prefixed := PrefixKey(namespace, key);
      if prefixed !in redis.entries { return Absent; }
      var raw := redis.entries[prefixed];
      var parsed := parse(raw);
      if parsed.None? {
        if delWorks { DelKey(key); }
        return Corrupt(BadJson);
      }
      if schema.None? { return Value(raw); }
      if !schema.value(parsed.value) {
        if delWorks { DelKey(key); }
        return Corrupt(BadSchema);
      }
      return Value(raw);
    }

    method SetKey(key: string, raw: string)
      modifies redis
      ensures redis.entries == Effect(old(redis.entries), PrefixKey(namespace, key), Set(key, raw))
           == old(redis.entries)[namespace + ":" + key := raw]
    {
      redis.entries := redis.entries[PrefixKey(namespace, key) := raw];
    }

    method DelKey(key: string)
      modifies redis
      ensures redis.entries == Effect(old(redis.entries), PrefixKey(namespace, key), Del(key))
           == old(redis.entries) - {namespace + ":" + key}
    {
      redis.entries := redis.entries - {PrefixKey(namespace, key)};
    }
  }

  /** An uninterrupted get is the Read and, for a corrupt entry, the Heal of the
      shared keyspace. */
  lemma GetIsTwoSteps(entries: map<string, string>, namespace: string, key: string, judge: string -> Verdict,
                      delWorks: bool)
    ensures var raw := Lookup(entries, PrefixKey(namespace, key));
            var read := Event(namespace, Read(0, key, judge));
            var heal := Event(namespace, Heal(0, key, delWorks));
            var after := if Judged(raw, judge).Corrupt? && delWorks then entries - {PrefixKey(namespace, key)}
                         else entries;
            var run := Cache.Play(Shared(entries, map[]), if Judged(raw, judge).Corrupt? then [read, heal] else [read]);
            run.Some? && run.value.0 == Shared(after, map[]) && run.value.1[0] == Some(Judged(raw, judge))
  {
    var raw := Lookup(entries, PrefixKey(namespace, key));
    var read, heal := Event(namespace, Read(0, key, judge)), Event(namespace, Heal(0, key, delWorks));
    assert [read, heal][1..] == [heal] && [heal][1..] == [] && [read][1..] == [];
    var s1 := SharedStep(Shared(entries, map[]), read).value;
    if Judged(raw, judge).Corrupt? {
      var s2 := SharedStep(s1, heal).value;
      assert s1.store == entries && s2.healing == map[];
      assert Cache.Play(s2, []) == Some((s2, []));
      assert Cache.Play(s1, [heal]).Some? && Cache.Play(s1, [heal]).value.0 == s2;
    }
  }
}
