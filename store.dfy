/**
 * The crawler's result store (`seenIds`, `allResults`, `totalFound` and
 * `addProduct` in src/utils.js, and the same three globals in index.js):
 * products are kept in arrival order, once per id, and the whole list is
 * written out every `CHECKPOINT_INTERVAL` new products.
 *
 * Writing the file is recorded in the ghost log `checkpoints`: entry k is
 * the list as it stood at the k-th write.
 */
module Store {
  import opened Product

  const CHECKPOINT_INTERVAL := 500

  /** The ids of a list of products. */
  function IdsOf(ps: seq<Product>): (r: set<string>)
  {
    set k | 0 <= k < |ps| :: ps[k].id
  }

  /** No id occurs twice. */
  predicate DistinctIds(ps: seq<Product>) {
    forall a, b :: 0 <= a < b < |ps| ==> ps[a].id != ps[b].id
  }

  lemma IdsOfAppend(ps: seq<Product>, p: Product)
    ensures IdsOf(ps + [p]) == IdsOf(ps) + {p.id}
  {
    assert forall k :: 0 <= k < |ps| ==> (ps + [p])[k] == ps[k];
    assert (ps + [p])[|ps|] == p;
  }

  /** What a run of `addProduct` calls over `ps` keeps, starting from the
      ids `seen`: each product whose id is neither seen before nor taken
      earlier in the run, in order. */
  function Accept(seen: set<string>, ps: seq<Product>): (r: seq<Product>)
    ensures |r| <= |ps|
    ensures DistinctIds(r)
    ensures IdsOf(r) !! seen
    ensures IdsOf(r) + seen == IdsOf(ps) + seen
    ensures forall k :: 0 <= k < |r| ==> r[k] in ps
  {
    if ps == [] then []
    else
      var init := ps[..|ps| - 1];
      var p := ps[|ps| - 1];
      var r := Accept(seen, init);
      assert ps == init + [p];
      if p.id in seen || p.id in IdsOf(r) then
        AcceptSkips(seen, init, p, r);
        r
      else
        AcceptGrows(seen, init, p, r);
        r + [p]
  }

  /** A product whose id is known leaves what was kept as it is. */
  lemma AcceptSkips(seen: set<string>, init: seq<Product>, p: Product, r: seq<Product>)
    requires IdsOf(r) + seen == IdsOf(init) + seen
    requires forall k :: 0 <= k < |r| ==> r[k] in init
    requires p.id in seen || p.id in IdsOf(r)
    ensures IdsOf(r) + seen == IdsOf(init + [p]) + seen
    ensures forall k :: 0 <= k < |r| ==> r[k] in init + [p]
  {
    IdsOfAppend(init, p);
  }

  /** A product with a new id is kept, and the kept ids stay distinct and
      new. */
  lemma AcceptGrows(seen: set<string>, init: seq<Product>, p: Product, r: seq<Product>)
    requires DistinctIds(r) && IdsOf(r) !! seen
    requires IdsOf(r) + seen == IdsOf(init) + seen
    requires forall k :: 0 <= k < |r| ==> r[k] in init
    requires p.id !in seen && p.id !in IdsOf(r)
    ensures DistinctIds(r + [p]) && IdsOf(r + [p]) !! seen
    ensures IdsOf(r + [p]) + seen == IdsOf(init + [p]) + seen
    ensures forall k :: 0 <= k < |r + [p]| ==> (r + [p])[k] in init + [p]
  {
    IdsOfAppend(init, p);
    IdsOfAppend(r, p);
  }

  /** Processing one more product extends the accepted list by that
      product exactly when its id is new. */
  lemma AcceptStep(seen: set<string>, ps: seq<Product>, p: Product)
    ensures Accept(seen, ps + [p]) ==
              Accept(seen, ps) + (if p.id in seen + IdsOf(Accept(seen, ps)) then [] else [p])
  {
    assert (ps + [p])[..|ps|] == ps;
  }

  /** The part of the store `addProduct` reads and writes: the list and
      the id set. */
  datatype Seen = Seen(results: seq<Product>, ids: set<string>)

  /** One `addProduct` call on that state. */
  function Add(st: Seen, p: Product): Seen {
    if p.id in st.ids then st else Seen(st.results + [p], st.ids + {p.id})
  }

  /** A run of `addProduct` calls over `ps`, in order. */
  function Feed(st: Seen, ps: seq<Product>): Seen {
    if ps == [] then st else Add(Feed(st, ps[..|ps| - 1]), ps[|ps| - 1])
  }

  lemma FeedStep(st: Seen, ps: seq<Product>, p: Product)
    ensures Feed(st, ps + [p]) == Add(Feed(st, ps), p)
  {
    assert (ps + [p])[..|ps|] == ps;
  }

  /** A run of `addProduct` calls over `ps` on a store holding `base` with
      the ids `seen` appends exactly what `Accept` keeps, and records its
      ids. */
  lemma {:induction false} FeedIsAccept(base: seq<Product>, seen: set<string>, ps: seq<Product>)
    ensures Feed(Seen(base, seen), ps) == Seen(base + Accept(seen, ps), seen + IdsOf(Accept(seen, ps)))
  {
    if ps == [] {
      assert base + [] == base;
    } else {
      var init, p := ps[..|ps| - 1], ps[|ps| - 1];
      assert ps == init + [p];
      FeedIsAccept(base, seen, init);
      AcceptStep(seen, init, p);
      var r := Accept(seen, init);
      if p.id !in seen + IdsOf(r) {
        IdsOfAppend(r, p);
        assert base + (r + [p]) == (base + r) + [p];
      }
    }
  }

  /** The store. */
  class DedupStore {
    var seenIds: set<string>
    var allResults: seq<Product>
    var totalFound: nat
    ghost var checkpoints: seq<seq<Product>>

    /** What `addProduct` reads and writes. */
    function State(): Seen
      reads this
    {
      Seen(allResults, seenIds)
    }

    ghost predicate Valid()
      reads this
    {
      Consistent(seenIds, allResults, totalFound, checkpoints)
    }

    constructor ()
      ensures Valid()
      ensures seenIds == {} && allResults == [] && totalFound == 0 && checkpoints == []
    {
      seenIds := {};
      allResults := [];
      totalFound := 0;
      checkpoints := [];
    }

    /** `addProduct`: a product with an unseen id is appended and counted,
        and the list is written out when the count reaches a multiple of
        the interval; a product with a known id changes nothing. */
    method AddProduct(p: Product) returns (added: bool)
      requires Valid()
      modifies this
      ensures Valid()
      ensures State() == Add(old(State()), p)
      ensures added <==> p.id !in old(seenIds)
      ensures added ==> && seenIds == old(seenIds) + {p.id}
                        && allResults == old(allResults) + [p]
                        && totalFound == old(totalFound) + 1
                        && checkpoints == old(checkpoints) + (if totalFound % CHECKPOINT_INTERVAL == 0 then [allResults] else [])
      ensures !added ==> && seenIds == old(seenIds)
                         && allResults == old(allResults)
                         && totalFound == old(totalFound)
                         && checkpoints == old(checkpoints)
    {
      if p.id !in seenIds {
        ConsistentAdd(seenIds, allResults, totalFound, checkpoints, p);
        seenIds := seenIds + {p.id};
        allResults := allResults + [p];
        totalFound := totalFound + 1;
        // `saveResults()` when the count reaches a multiple of the interval
        checkpoints := checkpoints + (if totalFound % CHECKPOINT_INTERVAL == 0 then [allResults] else []);
        return true;
      }
      return false;
    }
  }

  /** The id set is exactly the ids of the list, with no id twice; the
      set, the list and the counter have the same size; and there is one
      checkpoint per `CHECKPOINT_INTERVAL` products, the k-th holding the
      first (k + 1) * CHECKPOINT_INTERVAL of them. */
  ghost predicate Consistent(ids: set<string>, rs: seq<Product>, n: nat, cps: seq<seq<Product>>) {
    && ids == IdsOf(rs)
    && DistinctIds(rs)
    && |rs| == n
    && |ids| == n
    && Logged(cps, rs)
  }

  /** Storing a product with a new id keeps the store consistent. */
  lemma ConsistentAdd(ids: set<string>, rs: seq<Product>, n: nat, cps: seq<seq<Product>>, p: Product)
    requires Consistent(ids, rs, n, cps) && p.id !in ids
    ensures Consistent(ids + {p.id}, rs + [p], n + 1,
                       cps + (if (n + 1) % CHECKPOINT_INTERVAL == 0 then [rs + [p]] else []))
  {
    IdsOfAppend(rs, p);
    DistinctAppend(rs, p);
    LoggedStep(cps, rs, p);
  }

  /** The checkpoint log of a list: one entry per full interval, the k-th
      holding the first (k + 1) * CHECKPOINT_INTERVAL products. */
  ghost predicate Logged(cps: seq<seq<Product>>, rs: seq<Product>) {
    && |cps| == |rs| / CHECKPOINT_INTERVAL
    && forall k :: 0 <= k < |cps| ==>
         (k + 1) * CHECKPOINT_INTERVAL <= |rs| && cps[k] == rs[..(k + 1) * CHECKPOINT_INTERVAL]
  }

  /** Appending a product keeps the log right when a checkpoint is written
      exactly at the multiples of the interval. */
  lemma LoggedStep(cps: seq<seq<Product>>, rs: seq<Product>, p: Product)
    requires Logged(cps, rs)
    ensures Logged(cps + (if (|rs| + 1) % CHECKPOINT_INTERVAL == 0 then [rs + [p]] else []), rs + [p])
  {
    var rs' := rs + [p];
    var cps' := cps + (if (|rs| + 1) % CHECKPOINT_INTERVAL == 0 then [rs'] else []);
    DivStep(|rs|);
    forall k | 0 <= k < |cps'|
      ensures (k + 1) * CHECKPOINT_INTERVAL <= |rs'| && cps'[k] == rs'[..(k + 1) * CHECKPOINT_INTERVAL]
    {
      if k < |cps| {
        assert rs'[..(k + 1) * CHECKPOINT_INTERVAL] == rs[..(k + 1) * CHECKPOINT_INTERVAL];
      } else {
        assert rs'[..|rs'|] == rs';
      }
    }
  }

  /** A product with a new id keeps the ids distinct. */
  lemma DistinctAppend(ps: seq<Product>, p: Product)
    requires DistinctIds(ps) && p.id !in IdsOf(ps)
    ensures DistinctIds(ps + [p])
  {
  }

  /** One more product raises the number of checkpoints by one exactly
      when the new count is a multiple of the interval. */
  lemma DivStep(n: nat)
    ensures (n + 1) / CHECKPOINT_INTERVAL == n / CHECKPOINT_INTERVAL + (if (n + 1) % CHECKPOINT_INTERVAL == 0 then 1 else 0)
    ensures (n + 1) % CHECKPOINT_INTERVAL == 0 ==> (n / CHECKPOINT_INTERVAL + 1) * CHECKPOINT_INTERVAL == n + 1
    ensures (n / CHECKPOINT_INTERVAL) * CHECKPOINT_INTERVAL <= n
  {
  }
}
