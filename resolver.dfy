/** Expansion of a possibly nested bundle into food weights, as set_journal_bundle needs it:
    breadth-first from the root over 0-valued (nested bundle) entries, each bundle expanded at
    most once, positive entries accumulated per food. Nothing at write time rules out a cycle
    of nested bundles, so termination rests on the visited set, not on acyclicity. */
module Resolver {
  import opened Model
  import opened StoreErrors
  import opened Tables

  type Bundles = map<BundleKey, map<string, real>>

  /** Keys of the nested bundles an entry map names. */
  function ZeroChildren(data: map<string, real>): set<string> {
    set k | k in data && data[k] == 0.0
  }

  /** Keys of the foods an entry map lists with a positive weight. */
  function Positives(data: map<string, real>): set<string> {
    set k | k in data && data[k] > 0.0
  }

  predicate Distinct(s: seq<string>) {
    forall i, j :: 0 <= i < j < |s| ==> s[i] != s[j]
  }

  /** S is closed under nesting: every nested entry of an existing bundle of S names a member. */
  ghost predicate Closed(bundles: Bundles, u: int, S: set<string>) {
    forall c, k :: c in S && BundleKey(u, c) in bundles && k in ZeroChildren(bundles[BundleKey(u, c)]) ==> k in S
  }

  /** Every member of S is reachable from root: S lies inside every closed set holding root. */
  ghost predicate Reachable(bundles: Bundles, u: int, root: string, S: set<string>) {
    forall C: set<string> :: root in C && Closed(bundles, u, C) ==> S <= C
  }

  /** The foods the existing bundles of S list with a positive weight. */
  ghost function FoodsOf(bundles: Bundles, u: int, S: set<string>): set<string> {
    set c, f | c in S && BundleKey(u, c) in bundles && f in Positives(bundles[BundleKey(u, c)]) :: f
  }

  /** The bundles of S that list food f with a positive weight. */
  ghost function Sources(bundles: Bundles, u: int, S: set<string>, f: string): set<string> {
    set c | c in S && BundleKey(u, c) in bundles && f in Positives(bundles[BundleKey(u, c)])
  }

  // ---------------------------------------------------------------- set algebra

  lemma FoodsOfAdd(bundles: Bundles, u: int, S: set<string>, c: string)
    requires BundleKey(u, c) in bundles
    ensures FoodsOf(bundles, u, S + {c}) == FoodsOf(bundles, u, S) + Positives(bundles[BundleKey(u, c)])
  {
    var data := bundles[BundleKey(u, c)];
    forall f | f in Positives(data) ensures f in FoodsOf(bundles, u, S + {c}) {
      assert c in S + {c};
    }
  }

  lemma SourcesAdd(bundles: Bundles, u: int, S: set<string>, c: string, f: string)
    requires BundleKey(u, c) in bundles
    ensures Sources(bundles, u, S + {c}, f) ==
      Sources(bundles, u, S, f) + (if f in Positives(bundles[BundleKey(u, c)]) then {c} else {})
  {
  }

  lemma SourcesNonEmpty(bundles: Bundles, u: int, S: set<string>, f: string)
    ensures f in FoodsOf(bundles, u, S) <==> Sources(bundles, u, S, f) != {}
  {
    if f in FoodsOf(bundles, u, S) {
      var c :| c in S && BundleKey(u, c) in bundles && f in Positives(bundles[BundleKey(u, c)]);
      assert c in Sources(bundles, u, S, f);
    }
    if Sources(bundles, u, S, f) != {} {
      var c :| c in Sources(bundles, u, S, f);
      assert f in FoodsOf(bundles, u, S);
    }
  }

  // ---------------------------------------------------------------- expansion

  /** The effect of expanding the entries data of one bundle on the traversal state: unseen
      nested keys are marked and queued behind the existing queue, every positive entry names an
      existing food and is added to the accumulator. */
  ghost predicate Expanded(foods: map<string, Food>, data: map<string, real>,
                           seen0: set<string>, work0: seq<string>, acc0: map<string, real>,
                           seen: set<string>, work: seq<string>, acc: map<string, real>)
  {
    && seen == seen0 + ZeroChildren(data)
    && (seen == seen0 ==> work == work0)
    && (forall x :: x in work <==> x in work0 || (x in ZeroChildren(data) && x !in seen0))
    && Distinct(work) && (forall x :: x in work ==> x in seen)
    && acc.Keys == acc0.Keys + Positives(data)
    && (forall f :: f in Positives(data) ==> f in foods)
    && (forall f :: f in acc ==> acc[f] > 0.0)
    && (forall f :: f in acc0 && f !in Positives(data) ==> acc[f] == acc0[f])
    && (forall f :: f in Positives(data) && f !in acc0 ==> acc[f] == data[f])
  }

  /** Expands one bundle's entries: nested keys not yet seen are queued and marked, positive
      entries are checked against the food table and added to the accumulator (summing when a
      food is already there). */
  method ExpandEntries(t: Tables, u: int, c: string, seen0: set<string>, work0: seq<string>, acc0: map<string, real>)
    returns (err: Option<StorageError>, seen: set<string>, work: seq<string>, acc: map<string, real>)
    requires BundleKey(u, c) in t.bundles
    requires Distinct(work0) && forall x :: x in work0 ==> x in seen0
    requires forall f :: f in acc0 ==> acc0[f] > 0.0
    ensures var data := t.bundles[BundleKey(u, c)];
      err.Some? ==> err.value == FoodNotFound && exists f :: f in Positives(data) && f !in t.foods
    ensures err.None? ==> Expanded(t.foods, t.bundles[BundleKey(u, c)], seen0, work0, acc0, seen, work, acc)
  {
    var data := t.bundles[BundleKey(u, c)];
    seen, work, acc := seen0, work0, acc0;
    var rest := data.Keys;
    while rest != {}
      invariant rest <= data.Keys
      invariant seen == seen0 + (ZeroChildren(data) - rest)
      invariant seen == seen0 ==> work == work0
      invariant forall x :: x in work <==> x in work0 || (x in ZeroChildren(data) - rest && x !in seen0)
      invariant Distinct(work) && forall x :: x in work ==> x in seen
      invariant acc.Keys == acc0.Keys + (Positives(data) - rest)
      invariant forall f :: f in Positives(data) - rest ==> f in t.foods
      invariant forall f :: f in acc ==> acc[f] > 0.0
      invariant forall f :: f in acc0 && f !in Positives(data) - rest ==> acc[f] == acc0[f]
      invariant forall f :: f in Positives(data) - rest && f !in acc0 ==> acc[f] == data[f]
      decreases rest
    {
      var k :| k in rest;
      var v := data[k];
      if v == 0.0 {
        if k !in seen {
          work := work + [k];
          seen := seen + {k};
        }
      } else if v > 0.0 {
        if k !in t.foods {
          assert k in Positives(data);
          return Some(FoodNotFound), seen, work, acc;
        }
        acc := acc[k := if k in acc then acc[k] + v else v];
      }
      rest := rest - {k};
    }
    err := None;
  }

  /** The traversal state between two expansions: seen is the expanded set done plus the queue,
      every member is reachable from root, done bundles exist and have their nested keys seen,
      and the accumulator holds exactly the foods of done with their sole-source weights. */
  ghost predicate Frontier(t: Tables, u: int, root: string, universe: set<string>,
                           seen: set<string>, work: seq<string>, acc: map<string, real>, done: set<string>)
  {
    && (forall x :: x in seen <==> x in done || x in work)
    && (forall x :: x in work ==> x !in done)
    && Distinct(work)
    && root in seen && seen <= universe
    && (root !in done ==> work != [] && work[0] == root)
    && Reachable(t.bundles, u, root, seen)
    && (forall x :: x in done ==> BundleKey(u, x) in t.bundles)
    && (forall x, k :: x in done && k in ZeroChildren(t.bundles[BundleKey(u, x)]) ==> k in seen)
    && acc.Keys == FoodsOf(t.bundles, u, done)
    && (forall f :: f in acc ==> f in t.foods && acc[f] > 0.0)
    && (forall f, x :: f in acc && Sources(t.bundles, u, done, f) == {x} ==>
          acc[f] == t.bundles[BundleKey(u, x)][f])
    && (BundlesResolve(t) && BundleKey(u, root) in t.bundles ==>
          forall x :: x in seen ==> BundleKey(u, x) in t.bundles)
  }

  function Universe(t: Tables, root: string): set<string> {
    {root} + (set bk, k | bk in t.bundles && k in t.bundles[bk] :: k)
  }

  /** resolve(user, root): the food weights the root bundle expands to, with the set of bundle
      keys the expansion visited (a ghost witness of the traversal). */
  method Resolve(t: Tables, u: int, root: string) returns (r: Result<map<string, real>>, ghost visited: set<string>)
    ensures root in visited && Reachable(t.bundles, u, root, visited)
    ensures BundleKey(u, root) !in t.bundles ==> r == Fail(BundleNotFound)
    ensures BundlesResolve(t) && BundleKey(u, root) in t.bundles ==> r.Ok?
    ensures r.Ok? ==>
      && Closed(t.bundles, u, visited)
      && (forall c :: c in visited ==> BundleKey(u, c) in t.bundles)
      && r.value.Keys == FoodsOf(t.bundles, u, visited)
      && (forall f :: f in r.value ==> f in t.foods && r.value[f] > 0.0)
      && (forall f, c :: f in r.value && Sources(t.bundles, u, visited, f) == {c} ==>
            r.value[f] == t.bundles[BundleKey(u, c)][f])
    ensures r.Err? ==>
      || (r.error == Storage(BundleNotFound) && exists c :: c in visited && BundleKey(u, c) !in t.bundles)
      || (r.error == Storage(FoodNotFound) && exists f :: f in FoodsOf(t.bundles, u, visited) && f !in t.foods)
  {
    ghost var universe := Universe(t, root);
    var seen := {root};
    var work := [root];
    var acc: map<string, real> := map[];
    ghost var done: set<string> := {};
    assert Frontier(t, u, root, universe, seen, work, acc, done);
    while work != []
      invariant Frontier(t, u, root, universe, seen, work, acc, done)
      decreases |universe - seen|, |work|
    {
      var c := work[0];
      if BundleKey(u, c) !in t.bundles {
        MissingBundleExit(t, u, root, universe, seen, work, acc, done);
        visited := seen;
        return Fail(BundleNotFound), visited;
      }
      PopKeepsQueue(work, seen);
      var err, seen', work', acc' := ExpandEntries(t, u, c, seen, work[1..], acc);
      if err.Some? {
        MissingFoodExit(t, u, root, universe, seen, work, acc, done);
        visited := seen;
        return Fail(FoodNotFound), visited;
      }
      FrontierStep(t, u, root, universe, seen, work, acc, done, c, seen', work', acc');
      seen, work, acc := seen', work', acc';
      done := done + {c};
    }
    FinishedExit(t, u, root, universe, seen, acc, done);
    visited := seen;
    r := Ok(acc);
  }

  /** Leaving at a missing bundle: the expansion saw it, and under integrity it cannot happen. */
  lemma MissingBundleExit(t: Tables, u: int, root: string, universe: set<string>,
                          seen: set<string>, work: seq<string>, acc: map<string, real>, done: set<string>)
    requires Frontier(t, u, root, universe, seen, work, acc, done)
    requires work != [] && BundleKey(u, work[0]) !in t.bundles
    ensures root in seen && Reachable(t.bundles, u, root, seen)
    ensures !(BundlesResolve(t) && BundleKey(u, root) in t.bundles)
    ensures exists c :: c in seen && BundleKey(u, c) !in t.bundles
  {
    assert work[0] in work;
  }

  /** Leaving at a missing food: bundle work[0] lists it, and under integrity it cannot happen. */
  lemma MissingFoodExit(t: Tables, u: int, root: string, universe: set<string>,
                        seen: set<string>, work: seq<string>, acc: map<string, real>, done: set<string>)
    requires Frontier(t, u, root, universe, seen, work, acc, done)
    requires work != [] && BundleKey(u, work[0]) in t.bundles
    requires exists f :: f in Positives(t.bundles[BundleKey(u, work[0])]) && f !in t.foods
    ensures root in seen && Reachable(t.bundles, u, root, seen)
    ensures BundleKey(u, root) in t.bundles
    ensures !BundlesResolve(t)
    ensures exists f :: f in FoodsOf(t.bundles, u, seen) && f !in t.foods
  {
    var c := work[0];
    assert c in work;
    FoodNotFoundWitness(t, u, c, done, seen);
    var f :| f in Positives(t.bundles[BundleKey(u, c)]) && f !in t.foods;
    EntryOf(t, BundleKey(u, c), f);
  }

  /** Leaving with an empty queue: everything seen was expanded. */
  lemma FinishedExit(t: Tables, u: int, root: string, universe: set<string>,
                     seen: set<string>, acc: map<string, real>, done: set<string>)
    requires Frontier(t, u, root, universe, seen, [], acc, done)
    ensures root in seen && Reachable(t.bundles, u, root, seen)
    ensures Closed(t.bundles, u, seen)
    ensures forall c :: c in seen ==> BundleKey(u, c) in t.bundles
    ensures acc.Keys == FoodsOf(t.bundles, u, seen)
    ensures forall f :: f in acc ==> f in t.foods && acc[f] > 0.0
    ensures forall f, c :: f in acc && Sources(t.bundles, u, seen, f) == {c} ==>
              acc[f] == t.bundles[BundleKey(u, c)][f]
  {
    assert done == seen;
  }

  lemma PopKeepsQueue(work: seq<string>, seen: set<string>)
    requires work != [] && Distinct(work) && forall x :: x in work ==> x in seen
    ensures Distinct(work[1..]) && (forall x :: x in work[1..] ==> x in seen) && work[0] !in work[1..]
  {
    assert forall i :: 0 <= i < |work| - 1 ==> work[1..][i] == work[i + 1] != work[0];
  }

  /** A food the bundle c lists is a food of every seen set that holds c. */
  lemma FoodNotFoundWitness(t: Tables, u: int, c: string, done: set<string>, seen: set<string>)
    requires BundleKey(u, c) in t.bundles && done + {c} <= seen
    ensures Positives(t.bundles[BundleKey(u, c)]) <= FoodsOf(t.bundles, u, seen)
  {
    FoodsOfAdd(t.bundles, u, done, c);
    FoodsOfMono(t.bundles, u, done + {c}, seen);
  }

  /** Under integrity, each entry of an existing bundle resolves. */
  lemma EntryOf(t: Tables, bk: BundleKey, k: string)
    requires bk in t.bundles && k in t.bundles[bk]
    ensures BundlesResolve(t) ==> EntryResolves(t, bk.user, k, t.bundles[bk][k])
  {
  }

  /** One outer step of Resolve keeps its invariant and decreases its measure. */
  lemma FrontierStep(t: Tables, u: int, root: string, universe: set<string>,
                     seen: set<string>, work: seq<string>, acc: map<string, real>, done: set<string>,
                     c: string, seen': set<string>, work': seq<string>, acc': map<string, real>)
    requires universe == Universe(t, root)
    requires Frontier(t, u, root, universe, seen, work, acc, done)
    requires work != [] && c == work[0] && BundleKey(u, c) in t.bundles
    requires Expanded(t.foods, t.bundles[BundleKey(u, c)], seen, work[1..], acc, seen', work', acc')
    ensures Frontier(t, u, root, universe, seen', work', acc', done + {c})
    ensures |universe - seen'| < |universe - seen| || (seen' == seen && |work'| < |work|)
  {
    var data := t.bundles[BundleKey(u, c)];
    assert c in work && c in seen && c !in done;
    PopKeepsQueue(work, seen);
    assert forall x :: x in seen <==> x in done || x == c || x in work[1..];
    WorklistStep(c, done, seen, work[1..], seen', work', data);
    ResolveStep(t, u, root, c, done, seen, seen', work', acc, acc', universe);
    if seen' != seen {
      RemainderShrinks(universe, seen, seen');
    }
    forall k | k in ZeroChildren(data) ensures BundlesResolve(t) ==> BundleKey(u, k) in t.bundles {
      EntryOf(t, BundleKey(u, c), k);
    }
  }

  /** Popping c and queueing its unseen children keeps seen = done + queued, disjointly. */
  lemma WorklistStep(c: string, done: set<string>, seen: set<string>, rest: seq<string>,
                     seen': set<string>, work': seq<string>, data: map<string, real>)
    requires c !in rest && c !in done && c in seen
    requires forall x :: x in seen <==> x in done || x == c || x in rest
    requires forall x :: x in rest ==> x !in done
    requires seen' == seen + ZeroChildren(data)
    requires forall x :: x in work' <==> x in rest || (x in ZeroChildren(data) && x !in seen)
    ensures forall x :: x in seen' <==> x in done + {c} || x in work'
    ensures forall x :: x in work' ==> x !in done + {c}
  {
  }

  lemma RemainderShrinks(U: set<string>, A: set<string>, B: set<string>)
    requires A <= B <= U && A != B
    ensures |U - B| < |U - A|
  {
    var x :| x in B && x !in A;
    assert U - A == (U - B) + (B - A);
    assert (U - B) * (B - A) == {};
    assert x in B - A;
  }

  lemma FoodsOfMono(bundles: Bundles, u: int, S: set<string>, T: set<string>)
    requires S <= T
    ensures FoodsOf(bundles, u, S) <= FoodsOf(bundles, u, T)
  {
  }

  /** One outer step of Resolve keeps its invariants: expanding bundle c moves it to done. */
  lemma ResolveStep(t: Tables, u: int, root: string, c: string, done: set<string>,
                    visited: set<string>, visited': set<string>, work': seq<string>,
                    acc: map<string, real>, acc': map<string, real>, universe: set<string>)
    requires BundleKey(u, c) in t.bundles && c in visited && c !in done
    requires universe == Universe(t, root)
    requires visited <= universe
    requires Reachable(t.bundles, u, root, visited)
    requires visited' == visited + ZeroChildren(t.bundles[BundleKey(u, c)])
    requires acc.Keys == FoodsOf(t.bundles, u, done)
    requires acc'.Keys == acc.Keys + Positives(t.bundles[BundleKey(u, c)])
    requires forall f, x :: f in acc && Sources(t.bundles, u, done, f) == {x} ==>
        acc[f] == t.bundles[BundleKey(u, x)][f]
    requires forall f :: f in acc && f !in Positives(t.bundles[BundleKey(u, c)]) ==> acc'[f] == acc[f]
    requires forall f :: f in Positives(t.bundles[BundleKey(u, c)]) && f !in acc ==>
        acc'[f] == t.bundles[BundleKey(u, c)][f]
    ensures visited' <= universe
    ensures Reachable(t.bundles, u, root, visited')
    ensures acc'.Keys == FoodsOf(t.bundles, u, done + {c})
    ensures forall f, x :: f in acc' && Sources(t.bundles, u, done + {c}, f) == {x} ==>
        acc'[f] == t.bundles[BundleKey(u, x)][f]
  {
    var data := t.bundles[BundleKey(u, c)];
    forall k | k in ZeroChildren(data) ensures k in universe {
      assert BundleKey(u, c) in t.bundles && k in t.bundles[BundleKey(u, c)];
    }
    forall C: set<string> | root in C && Closed(t.bundles, u, C) ensures visited' <= C {
      assert c in C;
    }
    FoodsOfAdd(t.bundles, u, done, c);
    forall f, x | f in acc' && Sources(t.bundles, u, done + {c}, f) == {x}
      ensures acc'[f] == t.bundles[BundleKey(u, x)][f]
    {
      SourcesAdd(t.bundles, u, done, c, f);
      SourcesNonEmpty(t.bundles, u, done, f);
      if f in Positives(data) {
        assert x == c;
        SoleSourceIsNew(t.bundles, u, done, c, f);
      } else {
        assert f in acc;
      }
    }
  }

  /** A food whose only source is the bundle being added was not accumulated before it. */
  lemma SoleSourceIsNew(bundles: Bundles, u: int, S: set<string>, c: string, f: string)
    requires BundleKey(u, c) in bundles && c !in S
    requires Sources(bundles, u, S + {c}, f) == {c}
    ensures f !in FoodsOf(bundles, u, S)
  {
    SourcesAdd(bundles, u, S, c, f);
    assert Sources(bundles, u, S, f) <= {c};
    assert c !in Sources(bundles, u, S, f);
    assert Sources(bundles, u, S, f) == {};
    SourcesNonEmpty(bundles, u, S, f);
  }
}
