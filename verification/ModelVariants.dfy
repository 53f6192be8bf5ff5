/** The cache of model variants behind `withScope` and `withSchema`; its references are weak. */
module ModelVariants {
  import opened Common

  type Schema = nat
  type Delimiter = nat
  type ScopeName = nat
  type Scope = nat
  type ModelId = nat

  /** The empty string stands for the default, of a schema as of a delimiter. */
  const EMPTY := 0

  /** What tells variants apart. The order of the scope names counts. */
  datatype Key = Key(schema: Schema, delimiter: Delimiter, scopeNames: seq<ScopeName>, scope: Scope)

  datatype Ref = Ref(model: ModelId, key: Key, dead: bool)

  datatype Defaults = Defaults(schema: Schema, delimiter: Delimiter) {
    /** `extractTableDetails` fills in the defaults. */
    function Filled(k: Key): Key {
      k.(schema := if k.schema == EMPTY then schema else k.schema,
         delimiter := if k.delimiter == EMPTY then delimiter else k.delimiter)
    }

    /** The key that is looked up: the requested delimiter is passed under another name and not seen. */
    function LookedUp(k: Key): Key {
      Filled(k.(delimiter := EMPTY))
    }
  }

  /** What is empty is filled in, and what is not stays. */
  lemma FilledAsAsked(d: Defaults, k: Key)
    ensures k.schema != EMPTY ==> d.Filled(k).schema == k.schema
    ensures k.schema == EMPTY ==> d.Filled(k).schema == d.schema
    ensures k.delimiter != EMPTY ==> d.Filled(k).delimiter == k.delimiter
    ensures k.delimiter == EMPTY ==> d.Filled(k).delimiter == d.delimiter
    ensures d.Filled(k).scopeNames == k.scopeNames && d.Filled(k).scope == k.scope
  {
  }

  function Live(refs: seq<Ref>): seq<Ref> {
    if refs == [] then [] else (if refs[0].dead then [] else [refs[0]]) + Live(refs[1..])
  }

  function KeysOf(refs: seq<Ref>): (r: seq<Key>)
    ensures |r| == |refs| && forall i :: 0 <= i < |refs| ==> r[i] == refs[i].key
  {
    seq(|refs|, i requires 0 <= i < |refs| => refs[i].key)
  }

  /** The first reference with that key, or the length of the list. */
  function Find(refs: seq<Ref>, k: Key): (i: nat)
    ensures i <= |refs| && (i < |refs| ==> refs[i].key == k)
    ensures forall j :: 0 <= j < i ==> refs[j].key != k
  {
    IndexOf(KeysOf(refs), k)
  }

  /** The live references after a request, and the model it returns. */
  function Requested(d: Defaults, live: seq<Ref>, k: Key, next: ModelId): (seq<Ref>, Ref) {
    var i := Find(live, d.LookedUp(k));
    if i < |live| then (live, live[i])
    else var created := Ref(next, d.Filled(k), false); (live + [created], created)
  }

  /** The first live variant of the schema asked for, the scope asked for and the default delimiter is returned; a new
      variant is created only if there is none, of the schema, the delimiter and the scope asked for. */
  lemma {:induction false} RequestReturns(d: Defaults, live: seq<Ref>, k: Key, next: ModelId)
    ensures var schema := if k.schema == EMPTY then d.schema else k.schema;
            var seen := Key(schema, d.delimiter, k.scopeNames, k.scope);
            var asked := seen.(delimiter := if k.delimiter == EMPTY then d.delimiter else k.delimiter);
            var (refs, model) := Requested(d, live, k, next);
            if exists i :: 0 <= i < |live| && live[i].key == seen then
              refs == live && exists i :: 0 <= i < |live| && live[i] == model && model.key == seen &&
                                          forall j :: 0 <= j < i ==> live[j].key != seen
            else model == Ref(next, asked, false) && refs == live + [model]
  {
    var i := Find(live, d.LookedUp(k));
    if i < |live| { assert live[i].key == d.LookedUp(k); }
  }

  lemma {:induction false} LiveConcat(a: seq<Ref>, b: seq<Ref>)
    ensures Live(a + b) == Live(a) + Live(b)
  {
    if a == [] {
      assert a + b == b;
    } else {
      assert (a + b)[1..] == a[1..] + b;
      LiveConcat(a[1..], b);
    }
  }

  lemma {:induction false} LiveKeepsAll(refs: seq<Ref>)
    ensures (forall r :: r in refs ==> !r.dead) ==> Live(refs) == refs
    ensures forall r :: r in Live(refs) <==> r in refs && !r.dead
  {
    if refs != [] { LiveKeepsAll(refs[1..]); }
  }

  lemma FindFirst(a: seq<Ref>, x: Ref, b: seq<Ref>, k: Key)
    requires forall r :: r in a ==> r.key != k
    ensures x.key == k ==> Find(a + [x] + b, k) == |a|
    ensures Find(a, k) == |a|
  {
    var all := a + [x] + b;
    assert all[|a|] == x && forall j :: 0 <= j < |a| ==> all[j] == a[j] && a[j] in a;
  }

  lemma {:induction false} Hit(kept: seq<Ref>, rest: seq<Ref>, k: Key)
    requires (forall r :: r in kept ==> !r.dead && r.key != k) && rest != [] && !rest[0].dead && rest[0].key == k
    ensures Live(kept + rest) == kept + Live(rest)
    ensures Find(kept + Live(rest), k) == |kept| && (kept + Live(rest))[|kept|] == rest[0]
  {
    var x, t := rest[0], Live(rest[1..]);
    LiveFirst(rest);
    hide Live, Find;
    LiveConcat(kept, rest);
    LiveKeepsAll(kept);
    FindFirst(kept, x, t, k);
    assert kept + Live(rest) == kept + [x] + t;
  }

  lemma LiveFirst(rest: seq<Ref>)
    requires rest != [] && !rest[0].dead
    ensures Live(rest) == [rest[0]] + Live(rest[1..])
  {
  }

  lemma {:induction false} Miss(kept: seq<Ref>, created: Ref, k: Key)
    requires (forall r :: r in kept ==> !r.dead && r.key != k) && !created.dead
    ensures Live(kept + [created]) == kept + [created] && Find(kept, k) == |kept|
  {
    FindFirst(kept, created, [], k);
    LiveKeepsAll(kept + [created]);
  }

  class VariantCache {
    const defaults: Defaults
    var refs: seq<Ref>
    var next: ModelId

    /** At first there is only the initial model. */
    constructor (defaults: Defaults, initial: Key)
      ensures this.defaults == defaults && refs == [Ref(0, initial, false)] && next == 1
    {
      this.defaults, refs, next := defaults, [Ref(0, initial, false)], 1;
    }

    /** `_withScopeAndSchema`: dead references are dropped on the way. */
    method WithScopeAndSchema(k: Key) returns (model: Ref)
      modifies this
      ensures (Live(refs), model) == Requested(defaults, Live(old(refs)), k, old(next))
      ensures next == old(next) + |Live(refs)| - |Live(old(refs))|
      ensures forall i :: 0 <= i < |refs| && refs[i].dead ==> exists j :: 0 <= j < i && refs[j] == model
    {
      hide Find;
      var wanted := defaults.LookedUp(k);
      var kept := [];
      ghost var live := Live(refs);
      assert refs[0..] == refs;
      for i := 0 to |refs|
        invariant refs == old(refs) && next == old(next)
        invariant live == kept + Live(refs[i..])
        invariant forall r :: r in kept ==> !r.dead && r.key != wanted
      {
        var r := refs[i];
        assert refs[i..][0] == r && refs[i..][1..] == refs[i + 1..];
        if r.dead {
          continue;
        }
        if r.key == wanted {
          Hit(kept, refs[i..], wanted);
          refs := kept + refs[i..];
          assert refs[|kept|] == r;
          return r;
        }
        kept := kept + [r];
      }
      assert refs[|refs|..] == [] && live == kept;
      model := Ref(next, defaults.Filled(k), false);
      Miss(kept, model, wanted);
      refs, next := kept + [model], next + 1;
    }

    /** The garbage collector may take any variant at any time. */
    method Collect(m: ModelId)
      modifies this`refs
      ensures Live(refs) == Remaining(Live(old(refs)), m)
    {
      var marked := [];
      for i := 0 to |refs|
        invariant refs == old(refs) && |marked| == i
        invariant Live(marked) == Remaining(Live(refs[..i]), m)
      {
        var r := refs[i];
        var r' := if r.model == m then r.(dead := true) else r;
        assert refs[..i + 1] == refs[..i] + [r];
        LiveConcat(refs[..i], [r]);
        LiveConcat(marked, [r']);
        assert [r][1..] == [] && [r'][1..] == [];
        RemainingConcat(Live(refs[..i]), Live([r]), m);
        assert Live([r]) == (if r.dead then [] else [r]) && Remaining(Live([r]), m) == Live([r']) by {
          assert Remaining([r], m) == Live([r']) || r.dead;
        }
        marked := marked + [r'];
      }
      assert refs[..|refs|] == refs;
      refs := marked;
    }
  }

  function Remaining(live: seq<Ref>, m: ModelId): seq<Ref> {
    if live == [] then [] else (if live[0].model == m then [] else [live[0]]) + Remaining(live[1..], m)
  }

  lemma {:induction false} RemainingConcat(a: seq<Ref>, b: seq<Ref>, m: ModelId)
    ensures Remaining(a + b, m) == Remaining(a, m) + Remaining(b, m)
  {
    if a == [] {
      assert a + b == b;
    } else {
      assert (a + b)[1..] == a[1..] + b;
      RemainingConcat(a[1..], b, m);
    }
  }

  // ----- every run -----

  datatype Event = Request(key: Key) | Collected(model: ModelId)

  /** The live references along a run; every request may use up one model id. */
  function After(d: Defaults, live: seq<Ref>, next: ModelId, run: seq<Event>): seq<Ref>
    decreases |run|
  {
    if run == [] then live
    else
      match run[0]
      case Request(k) => After(d, Requested(d, live, k, next).0, next + 1, run[1..])
      case Collected(m) => After(d, Remaining(live, m), next, run[1..])
  }

  predicate DistinctKeys(live: seq<Ref>) {
    forall i, j :: 0 <= i < j < |live| ==> live[i].key != live[j].key
  }

  predicate DefaultDelimiter(d: Defaults, k: Key) {
    d.Filled(k).delimiter == d.delimiter
  }

  /** A request with the default delimiter returns a model of exactly the requested schema, scope names and
      scope: the live one, if there is one. */
  lemma {:induction false} RequestIsExact(d: Defaults, live: seq<Ref>, k: Key, next: ModelId)
    requires DefaultDelimiter(d, k)
    ensures Requested(d, live, k, next).1.key == d.Filled(k)
    ensures DistinctKeys(live) ==>
              DistinctKeys(Requested(d, live, k, next).0) &&
              forall r :: r in live && r.key == d.Filled(k) ==> Requested(d, live, k, next).1 == r
  {
  }

  lemma {:induction false} RemainingKeepsDistinct(live: seq<Ref>, m: ModelId)
    requires DistinctKeys(live)
    ensures DistinctKeys(Remaining(live, m)) && forall r :: r in Remaining(live, m) <==> r in live && r.model != m
  {
    if live != [] {
      assert forall i :: 0 <= i < |live[1..]| ==> live[1..][i] == live[i + 1];
      RemainingKeepsDistinct(live[1..], m);
    }
  }

  /** A request for a variant that is live, while none with the default delimiter is: the lookup misses it. */
  predicate Repeats(d: Defaults, live: seq<Ref>, k: Key) {
    && (exists r :: r in live && r.key == d.Filled(k))
    && (forall r :: r in live ==> r.key != d.Filled(k).(delimiter := d.delimiter))
  }

  predicate NeverRepeats(d: Defaults, live: seq<Ref>, next: ModelId, run: seq<Event>)
    decreases |run|
  {
    run == [] ||
    match run[0]
    case Request(k) => !Repeats(d, live, k) && NeverRepeats(d, Requested(d, live, k, next).0, next + 1, run[1..])
    case Collected(m) => NeverRepeats(d, Remaining(live, m), next, run[1..])
  }

  /** At every moment of the run, no two live variants have the same key. */
  predicate DistinctThroughout(d: Defaults, live: seq<Ref>, next: ModelId, run: seq<Event>)
    decreases |run|
  {
    DistinctKeys(live) &&
    (run == [] ||
     match run[0]
     case Request(k) => DistinctThroughout(d, Requested(d, live, k, next).0, next + 1, run[1..])
     case Collected(m) => DistinctThroughout(d, Remaining(live, m), next, run[1..]))
  }

  lemma {:induction false} RequestKeepsDistinct(d: Defaults, live: seq<Ref>, k: Key, next: ModelId)
    requires DistinctKeys(live)
    ensures DistinctKeys(Requested(d, live, k, next).0) <==> !Repeats(d, live, k)
  {
    var i := Find(live, d.LookedUp(k));
    assert d.LookedUp(k) == d.Filled(k).(delimiter := d.delimiter);
    if i < |live| {
      assert live[i] in live;
    } else {
      var after := Requested(d, live, k, next).0;
      assert after[|live|].key == d.Filled(k) && forall j :: 0 <= j < |live| ==> after[j] == live[j];
      if Repeats(d, live, k) {
        var r :| r in live && r.key == d.Filled(k);
        var j :| 0 <= j < |live| && live[j] == r;
        assert after[j].key == after[|live|].key;
      }
    }
  }

  /** Over any run of requests and collections, no two live variants ever have the same key if and only if no request,
      when it is made, asks for a variant that is live while none with the default delimiter is. */
  lemma {:induction false} NoDuplicateVariants(d: Defaults, live: seq<Ref>, next: ModelId, run: seq<Event>)
    requires DistinctKeys(live)
    ensures DistinctThroughout(d, live, next, run) <==> NeverRepeats(d, live, next, run)
    decreases |run|
  {
    if run != [] {
      match run[0]
      case Request(k) =>
        RequestKeepsDistinct(d, live, k, next);
        if !Repeats(d, live, k) { NoDuplicateVariants(d, Requested(d, live, k, next).0, next + 1, run[1..]); }
      case Collected(m) =>
        RemainingKeepsDistinct(live, m);
        NoDuplicateVariants(d, Remaining(live, m), next, run[1..]);
    }
  }

  /** With the default delimiter, that never happens. */
  lemma {:induction false} DefaultNeverRepeats(d: Defaults, live: seq<Ref>, next: ModelId, run: seq<Event>)
    requires forall e :: e in run && e.Request? ==> DefaultDelimiter(d, e.key)
    ensures NeverRepeats(d, live, next, run)
    decreases |run|
  {
    if run != [] {
      match run[0]
      case Request(k) =>
        assert run[0] in run && d.Filled(k) == d.Filled(k).(delimiter := d.delimiter);
        DefaultNeverRepeats(d, Requested(d, live, k, next).0, next + 1, run[1..]);
      case Collected(m) => DefaultNeverRepeats(d, Remaining(live, m), next, run[1..]);
    }
  }

  lemma {:induction false} StaysLive(d: Defaults, live: seq<Ref>, next: ModelId, run: seq<Event>, r: Ref)
    requires DistinctKeys(live) && r in live
    requires forall e :: e in run ==> (e.Request? ==> DefaultDelimiter(d, e.key)) && e != Collected(r.model)
    ensures DistinctKeys(After(d, live, next, run)) && r in After(d, live, next, run)
    decreases |run|
  {
    if run != [] {
      assert run[0] in run;
      match run[0]
      case Request(k) =>
        RequestIsExact(d, live, k, next);
        StaysLive(d, Requested(d, live, k, next).0, next + 1, run[1..], r);
      case Collected(m) =>
        RemainingKeepsDistinct(live, m);
        StaysLive(d, Remaining(live, m), next, run[1..], r);
    }
  }

  /** Equal requests share one model: until it is collected, asking again returns it, whatever happened since. */
  lemma {:induction false} EqualRequestsShare(d: Defaults, live: seq<Ref>, k: Key, k': Key, next: ModelId,
                                              run: seq<Event>, next': ModelId)
    requires DistinctKeys(live) && DefaultDelimiter(d, k) && DefaultDelimiter(d, k') && d.Filled(k) == d.Filled(k')
    requires forall e :: e in run ==> (e.Request? ==> DefaultDelimiter(d, e.key)) &&
                                      e != Collected(Requested(d, live, k, next).1.model)
    ensures var (refs, model) := Requested(d, live, k, next);
            Requested(d, After(d, refs, next + 1, run), k', next').1 == model
  {
    var (refs, model) := Requested(d, live, k, next);
    RequestIsExact(d, live, k, next);
    StaysLive(d, refs, next + 1, run, model);
    RequestIsExact(d, After(d, refs, next + 1, run), k', next');
  }

  /** Whatever the delimiter: a request returns a model of its own key exactly when its delimiter is the default
      one or no live variant differs from it in the delimiter alone, by having the default one. */
  lemma {:induction false} DelimiterIsNotSeen(d: Defaults, live: seq<Ref>, k: Key, next: ModelId)
    ensures Requested(d, live, k, next).1.key == d.Filled(k) <==>
            DefaultDelimiter(d, k) || forall r :: r in live ==> r.key != d.Filled(k).(delimiter := d.delimiter)
  {
  }

  /** Asked for delimiter 3 while the variant with the default one is live, the cache returns the latter; asked twice
      while it is not, the cache creates two variants of one key. */
  lemma DelimiterIsIgnored()
    ensures var d, k := Defaults(1, 2), Key(1, 3, [], 0);
            && Requested(d, [Ref(0, Key(1, 2, [], 0), false)], k, 1).1.key.delimiter == 2
            && Requested(d, Requested(d, [], k, 0).0, k, 1).0 == [Ref(0, k, false), Ref(1, k, false)]
  {
  }
}
