/** The application state's request logic: the status check every request goes through,
    inventory deduplication and hydration, the container filters, and the assembly of the
    per-item price results. The network is a parameter: every request is answered by a
    given `Response`. */
module State {
  import opened Wrappers
  import opened Numbers
  import opened Requests

  // ---------------------------------------------------------------------------
  // Errors and send_request

  /** `StateError`. Each variant wraps a library error the model does not look into, except
      `Other`, which the code only builds for an unexpected status code and which keeps that
      code. */
  datatype StateError = ReqwestMiddleware | Reqwest | Serde | Other(status: nat)

  /** A response body: it could not be read, it is not valid JSON for the expected record,
      or it decodes to `value`. */
  datatype Body<T> = Unreadable | Malformed | Json(value: T)

  /** What the network does with one request: executing it fails, or a reply with a status
      code and a body comes back. */
  datatype Response<T> = ExecuteFailed | Replied(status: nat, body: Body<T>)

  /** `send_request`: the error of `execute`, then any status other than 200 as
      `Other(status)` before the body is looked at, then the errors of reading and
      decoding the body. */
  function SendRequest<T>(resp: Response<T>): (r: Result<T, StateError>)
    ensures r.Ok? <==> resp.Replied? && resp.status == 200 && resp.body.Json?
    ensures r.Ok? ==> r.value == resp.body.value
    ensures resp.Replied? && resp.status != 200 ==> r == Err(Other(resp.status))
    ensures resp.ExecuteFailed? ==> r == Err(ReqwestMiddleware)
    ensures resp.Replied? && resp.status == 200 && resp.body.Unreadable? ==> r == Err(Reqwest)
    ensures resp.Replied? && resp.status == 200 && resp.body.Malformed? ==> r == Err(Serde)
  {
    match resp
    case ExecuteFailed => Err(ReqwestMiddleware)
    case Replied(status, body) =>
      if status != 200 then Err(Other(status))
      else match body
        case Unreadable => Err(Reqwest)
        case Malformed => Err(Serde)
        case Json(v) => Ok(v)
  }

  /** Under a status other than 200 the body is never read: two replies with that status
      give the same error whatever their bodies. */
  lemma {:induction false} StatusCheckedBeforeBody<T>(status: nat, b1: Body<T>, b2: Body<T>)
    requires status != 200
    ensures SendRequest(Replied(status, b1)) == SendRequest(Replied(status, b2))
    ensures SendRequest(Replied(status, b1)).Err?
  {
  }

  // ---------------------------------------------------------------------------
  // dedup_assets

  /** The classes that occur in a list of assets. */
  function ClassIds(s: seq<Asset>): set<nat> {
    set a | a in s :: a.classid
  }

  predicate DistinctClassIds(s: seq<Asset>) {
    forall i, j :: 0 <= i < j < |s| ==> s[i].classid != s[j].classid
  }

  lemma {:induction false} ClassIdsAppend(s: seq<Asset>, a: Asset)
    ensures ClassIds(s + [a]) == ClassIds(s) + {a.classid}
  {
  }

  /** How many assets of class `c` the list holds. */
  function Occurrences(s: seq<Asset>, c: nat): (n: nat)
    ensures n == 0 <==> c !in ClassIds(s)
  {
    if s == [] then 0
    else
      var p := s[..|s| - 1];
      ClassIdsAppend(p, s[|s| - 1]);
      assert s == p + [s[|s| - 1]];
      Occurrences(p, c) + if s[|s| - 1].classid == c then 1 else 0
  }

  /** The position of the first asset of class `c`. */
  function FirstIndex(s: seq<Asset>, c: nat): (i: nat)
    requires c in ClassIds(s)
    ensures i < |s| && s[i].classid == c
    ensures forall j :: 0 <= j < i ==> s[j].classid != c
  {
    if s[0].classid == c then 0
    else
      assert s == [s[0]] + s[1..];
      assert c in ClassIds(s[1..]);
      1 + FirstIndex(s[1..], c)
  }

  /** What `dedup_assets` keeps for class `c`: the first asset of that class, its amount
      raised by one for every further asset of the class. */
  function DedupEntry(s: seq<Asset>, c: nat): Asset
    requires c in ClassIds(s)
  {
    var first := s[FirstIndex(s, c)];
    first.(amount := first.amount + Occurrences(s, c) - 1)
  }

  /** `out` is a deduplication of `assets`: one asset per class of `assets` and no other
      class, each the `DedupEntry` of its class, in any order. */
  predicate IsDedupOf(assets: seq<Asset>, out: seq<Asset>) {
    && DistinctClassIds(out)
    && ClassIds(out) == ClassIds(assets)
    && forall i :: 0 <= i < |out| ==> out[i].classid in ClassIds(assets) && out[i] == DedupEntry(assets, out[i].classid)
  }

  /** Appending an asset of a class already present only raises that class's amount. */
  lemma {:induction false} DedupEntryAppendSeen(s: seq<Asset>, a: Asset)
    requires a.classid in ClassIds(s)
    ensures ClassIds(s + [a]) == ClassIds(s)
    ensures DedupEntry(s + [a], a.classid) == DedupEntry(s, a.classid).(amount := DedupEntry(s, a.classid).amount + 1)
  {
  }

  /** Appending an asset of a new class makes it the entry of that class. */
  lemma {:induction false} DedupEntryAppendNew(s: seq<Asset>, a: Asset)
    requires a.classid !in ClassIds(s)
    ensures ClassIds(s + [a]) == ClassIds(s) + {a.classid}
    ensures DedupEntry(s + [a], a.classid) == a
  {
  }

  /** Appending an asset leaves the entries of the other classes as they are. */
  lemma {:induction false} DedupEntryAppendOther(s: seq<Asset>, a: Asset, c: nat)
    requires c in ClassIds(s) && c != a.classid
    ensures DedupEntry(s + [a], c) == DedupEntry(s, c)
  {
  }

  /** The entry for class `c` as the fold of `dedup_assets` computes it, one asset at a
      time. */
  function FoldEntry(s: seq<Asset>, c: nat): Asset
    requires c in ClassIds(s)
  {
    var p, a := s[..|s| - 1], s[|s| - 1];
    assert s == p + [a];
    ClassIdsAppend(p, a);
    if c !in ClassIds(p) then a
    else
      var e := FoldEntry(p, c);
      if a.classid == c then e.(amount := e.amount + 1) else e
  }

  /** The fold computes the first asset of the class with its amount raised by one per
      further asset of the class. */
  lemma {:induction false} FoldEntryIsDedupEntry(s: seq<Asset>, c: nat)
    requires c in ClassIds(s)
    ensures FoldEntry(s, c) == DedupEntry(s, c)
  {
    var p, a := s[..|s| - 1], s[|s| - 1];
    assert s == p + [a];
    ClassIdsAppend(p, a);
    if c !in ClassIds(p) {
      DedupEntryAppendNew(p, a);
    } else {
      FoldEntryIsDedupEntry(p, c);
      if a.classid == c {
        DedupEntryAppendSeen(p, a);
      } else {
        DedupEntryAppendOther(p, a, c);
      }
    }
  }

  /** The map the fold of `dedup_assets` builds after the assets in `s`. */
  predicate FoldedFrom(acc: map<nat, Asset>, s: seq<Asset>) {
    && acc.Keys == ClassIds(s)
    && forall c :: c in acc ==> acc[c] == FoldEntry(s, c)
  }

  /** One step of the fold, for either branch of its `match`. */
  lemma {:induction false} FoldStep(acc: map<nat, Asset>, s: seq<Asset>, a: Asset)
    requires FoldedFrom(acc, s)
    ensures a.classid in acc ==> FoldedFrom(acc[a.classid := acc[a.classid].(amount := acc[a.classid].amount + 1)], s + [a])
    ensures a.classid !in acc ==> FoldedFrom(acc[a.classid := a], s + [a])
  {
  }

  /** The fold of `dedup_assets` over a map accumulator: the first asset of a class is
      inserted, each further one adds 1 to the stored amount. */
  method FoldAssets(assets: seq<Asset>) returns (acc: map<nat, Asset>)
    ensures acc.Keys == ClassIds(assets)
    ensures forall c :: c in acc ==> acc[c] == DedupEntry(assets, c)
  {
    acc := map[];
    for i := 0 to |assets|
      invariant FoldedFrom(acc, assets[..i])
    {
      var a := assets[i];
      assert assets[..i + 1] == assets[..i] + [a];
      FoldStep(acc, assets[..i], a);
      if a.classid in acc {
        acc := acc[a.classid := acc[a.classid].(amount := acc[a.classid].amount + 1)];
      } else {
        acc := acc[a.classid := a];
      }
    }
    assert assets[..|assets|] == assets;
    forall c | c in acc ensures acc[c] == DedupEntry(assets, c) {
      FoldEntryIsDedupEntry(assets, c);
    }
  }

  /** `into_values().collect()` on a map keyed by class: every value once, in whatever
      order the map yields them. */
  method IntoValues(acc: map<nat, Asset>) returns (values: seq<Asset>)
    requires forall c :: c in acc ==> acc[c].classid == c
    ensures DistinctClassIds(values)
    ensures ClassIds(values) == acc.Keys
    ensures forall i :: 0 <= i < |values| ==> values[i].classid in acc && values[i] == acc[values[i].classid]
  {
    values := [];
    var rest := acc.Keys;
    while rest != {}
      invariant ClassIds(values) + rest == acc.Keys && ClassIds(values) !! rest
      invariant DistinctClassIds(values)
      invariant forall i :: 0 <= i < |values| ==> values[i].classid in acc && values[i] == acc[values[i].classid]
      decreases rest
    {
      var c :| c in rest;
      ClassIdsAppend(values, acc[c]);
      forall i | 0 <= i < |values| ensures values[i].classid != c {
        assert values[i] in values;
      }
      values := values + [acc[c]];
      rest := rest - {c};
    }
  }

  /** `dedup_assets`: one asset per class, the first of its class with its amount raised by
      one for every further asset of the class, in an unspecified order. */
  method DedupAssets(assets: seq<Asset>) returns (deduped: seq<Asset>)
    ensures IsDedupOf(assets, deduped)
  {
    var acc := FoldAssets(assets);
    deduped := IntoValues(acc);
  }

  /** The total amount of a list of assets. */
  function SumAmounts(s: seq<Asset>): nat {
    if s == [] then 0 else SumAmounts(s[..|s| - 1]) + s[|s| - 1].amount
  }

  /** How many assets of `s` belong to one of the classes in `classes`. */
  function CountIn(s: seq<Asset>, classes: set<nat>): nat {
    if s == [] then 0 else CountIn(s[..|s| - 1], classes) + if s[|s| - 1].classid in classes then 1 else 0
  }

  lemma {:induction false} CountInEmpty(s: seq<Asset>)
    ensures CountIn(s, {}) == 0
  {
    if s != [] {
      CountInEmpty(s[..|s| - 1]);
    }
  }

  lemma {:induction false} CountInSplit(s: seq<Asset>, classes: set<nat>, c: nat)
    requires c !in classes
    ensures CountIn(s, classes + {c}) == CountIn(s, classes) + Occurrences(s, c)
  {
    if s != [] {
      CountInSplit(s[..|s| - 1], classes, c);
    }
  }

  lemma {:induction false} CountInAll(s: seq<Asset>, classes: set<nat>)
    requires ClassIds(s) <= classes
    ensures CountIn(s, classes) == |s|
  {
    if s != [] {
      var p := s[..|s| - 1];
      assert s == p + [s[|s| - 1]];
      ClassIdsAppend(p, s[|s| - 1]);
      CountInAll(p, classes);
    }
  }

  lemma {:induction false} SumOfEntries(assets: seq<Asset>, out: seq<Asset>)
    requires forall i :: 0 <= i < |assets| ==> assets[i].amount == 1
    requires DistinctClassIds(out)
    requires forall i :: 0 <= i < |out| ==> out[i].classid in ClassIds(assets) && out[i] == DedupEntry(assets, out[i].classid)
    ensures SumAmounts(out) == CountIn(assets, ClassIds(out))
  {
    if out == [] {
      assert ClassIds(out) == {};
      CountInEmpty(assets);
    } else {
      var p, x := out[..|out| - 1], out[|out| - 1];
      assert out == p + [x];
      ClassIdsAppend(p, x);
      assert x.classid !in ClassIds(p) by {
        forall y | y in p ensures y.classid != x.classid {
          var k :| 0 <= k < |p| && p[k] == y;
          assert out[k] == y;
        }
      }
      SumOfEntries(assets, p);
      CountInSplit(assets, ClassIds(p), x.classid);
      assert assets[FirstIndex(assets, x.classid)].amount == 1;
    }
  }

  /** When every inventory slot holds one item, deduplication loses no item: the amounts
      of the deduplicated list add up to the length of the input. */
  lemma {:induction false} DedupTotal(assets: seq<Asset>, out: seq<Asset>)
    requires forall i :: 0 <= i < |assets| ==> assets[i].amount == 1
    requires IsDedupOf(assets, out)
    ensures SumAmounts(out) == |assets|
  {
    SumOfEntries(assets, out);
    CountInAll(assets, ClassIds(out));
  }

  /** In a list without repeated classes, every class occurs once. */
  lemma {:induction false} OccurrencesDistinct(s: seq<Asset>, i: nat)
    requires DistinctClassIds(s) && i < |s|
    ensures Occurrences(s, s[i].classid) == 1
  {
    var p := s[..|s| - 1];
    assert DistinctClassIds(p);
    if i < |s| - 1 {
      assert p[i] == s[i];
      OccurrencesDistinct(p, i);
    } else {
      assert forall j :: 0 <= j < |p| ==> p[j] == s[j];
    }
  }

  /** In a list without repeated classes every asset occurs at most once. */
  lemma {:induction false} DistinctCount(s: seq<Asset>, x: Asset)
    requires DistinctClassIds(s)
    ensures multiset(s)[x] == if x in s then 1 else 0
  {
    if s != [] {
      var n := |s| - 1;
      var p := s[..n];
      assert s == p + [s[n]];
      assert DistinctClassIds(p);
      assert forall k :: 0 <= k < n ==> p[k].classid != s[n].classid;
      DistinctCount(p, x);
    }
  }

  /** Two lists without repeated classes that hold the same assets are permutations of
      each other. */
  lemma {:induction false} SameAssetsPermutation(a: seq<Asset>, b: seq<Asset>)
    requires DistinctClassIds(a) && DistinctClassIds(b)
    requires forall x :: x in a <==> x in b
    ensures multiset(a) == multiset(b)
  {
    forall x: Asset
      ensures multiset(a)[x] == multiset(b)[x]
    {
      DistinctCount(a, x);
      DistinctCount(b, x);
    }
  }

  /** Deduplication changes nothing on a list without repeated classes: the list is its
      own deduplication, and every deduplication of it is a permutation of it, so
      deduplicating twice is deduplicating once. */
  lemma {:induction false} DedupOfDistinct(s: seq<Asset>)
    requires DistinctClassIds(s)
    ensures IsDedupOf(s, s)
    ensures forall o: seq<Asset> :: IsDedupOf(s, o) ==> multiset(o) == multiset(s)
  {
    forall i | 0 <= i < |s|
      ensures s[i].classid in ClassIds(s) && s[i] == DedupEntry(s, s[i].classid)
    {
      assert s[i] in s;
      OccurrencesDistinct(s, i);
      assert FirstIndex(s, s[i].classid) == i;
    }
    forall o: seq<Asset> | IsDedupOf(s, o)
      ensures multiset(o) == multiset(s)
    {
      forall x: Asset
        ensures x in o <==> x in s
      {
        if x in o {
          var j :| 0 <= j < |o| && o[j] == x;
          var y :| y in s && y.classid == x.classid;
          var i :| 0 <= i < |s| && s[i] == y;
          assert x == s[i];
        }
        if x in s {
          var i :| 0 <= i < |s| && s[i] == x;
          assert x.classid in ClassIds(o);
          var y :| y in o && y.classid == x.classid;
          var j :| 0 <= j < |o| && o[j] == y;
          assert y == s[i];
        }
      }
      SameAssetsPermutation(o, s);
    }
  }

  // ---------------------------------------------------------------------------
  // Hydration in fetch_user_items

  /** An asset together with the description of its class. `FullAsset` and
      `Asset::hydrate` are not part of this model; the pair stands for the hydrated item. */
  datatype FullAsset = FullAsset(asset: Asset, description: MarketItem)

  /** The `classid -> description` map `fetch_user_items` collects from the descriptions
      list: when two descriptions share a class, the later one is kept. */
  function DescriptionIndex(descs: seq<MarketItem>): (index: map<nat, MarketItem>)
    ensures index.Keys == set d | d in descs :: d.classid
    ensures forall c :: c in index ==> index[c] in descs && index[c].classid == c
  {
    if descs == [] then map[]
    else
      var p, d := descs[..|descs| - 1], descs[|descs| - 1];
      assert descs == p + [d];
      assert forall x :: x in descs <==> x in p || x == d;
      DescriptionIndex(p)[d.classid := d]
  }

  /** The last description of each class is the one the map keeps. */
  lemma {:induction false} DescriptionIndexLastWins(descs: seq<MarketItem>, i: nat)
    requires i < |descs|
    requires forall j :: i < j < |descs| ==> descs[j].classid != descs[i].classid
    ensures descs[i].classid in DescriptionIndex(descs)
    ensures DescriptionIndex(descs)[descs[i].classid] == descs[i]
  {
    if i < |descs| - 1 {
      var p := descs[..|descs| - 1];
      assert p[i] == descs[i];
      DescriptionIndexLastWins(p, i);
    }
  }

  /** The `map` over the assets in `fetch_user_items`: each asset `remove`s the description
      of its class from the map and `unwrap`s it, which panics when the class has no
      description or an earlier asset of the same class already took it. */
  method Hydrate(assets: seq<Asset>, index: map<nat, MarketItem>) returns (r: Outcome<seq<FullAsset>>)
    ensures r.Returned? <==> ClassIds(assets) <= index.Keys && DistinctClassIds(assets)
    ensures r.Returned? ==> |r.value| == |assets|
    ensures r.Returned? ==> forall i :: 0 <= i < |assets| ==> r.value[i] == FullAsset(assets[i], index[assets[i].classid])
  {
    var remaining := index;
    var hydrated: seq<FullAsset> := [];
    for i := 0 to |assets|
      invariant ClassIds(assets[..i]) <= index.Keys && DistinctClassIds(assets[..i])
      invariant remaining == index - ClassIds(assets[..i])
      invariant |hydrated| == i
      invariant forall j :: 0 <= j < i ==> hydrated[j] == FullAsset(assets[j], index[assets[j].classid])
    {
      var a := assets[i];
      assert assets[..i + 1] == assets[..i] + [a];
      ClassIdsAppend(assets[..i], a);
      if a.classid !in remaining {
        FailedRemove(assets, index, i);
        return Panicked;
      }
      assert forall j :: 0 <= j < i ==> assets[j] in assets[..i];
      hydrated := hydrated + [FullAsset(a, remaining[a.classid])];
      remaining := remaining - {a.classid};
    }
    assert assets[..|assets|] == assets;
    r := Returned(hydrated);
  }

  /** A failed `remove` at position `i` means a class without description or a repeated
      class. */
  lemma {:induction false} FailedRemove(assets: seq<Asset>, index: map<nat, MarketItem>, i: nat)
    requires i < |assets|
    requires assets[i].classid !in index || assets[i].classid in ClassIds(assets[..i])
    ensures !(ClassIds(assets) <= index.Keys && DistinctClassIds(assets))
  {
  }

  /** The assets of a list of hydrated items. */
  function AssetsOf(items: seq<FullAsset>): (assets: seq<Asset>)
    ensures |assets| == |items| && forall i :: 0 <= i < |items| ==> assets[i] == items[i].asset
  {
    seq(|items|, i requires 0 <= i < |items| => items[i].asset)
  }

  /** `fetch_user_items`, given the reply to the inventory request: the request's error is
      passed on; otherwise the descriptions are indexed by class, the assets deduplicated
      when `dedup` is set, and every asset hydrated with the description of its class. */
  method FetchUserItems(resp: Response<UserInventoryResponse>, dedup: bool)
    returns (r: Outcome<Result<seq<FullAsset>, StateError>>)
    ensures SendRequest(resp).Err? ==> r == Returned(Err(SendRequest(resp).error))
    ensures SendRequest(resp).Ok? ==>
      var inv := SendRequest(resp).value;
      r.Returned? <==> ClassIds(inv.assets) <= DescriptionIndex(inv.descriptions).Keys && (dedup || DistinctClassIds(inv.assets))
    ensures r.Returned? ==> SendRequest(resp).Ok? ==> r.value.Ok?
    ensures r.Returned? && r.value.Ok? ==>
      var inv := SendRequest(resp).value;
      var items := r.value.value;
      && (dedup ==> IsDedupOf(inv.assets, AssetsOf(items)))
      && (!dedup ==> AssetsOf(items) == inv.assets)
      && forall i :: 0 <= i < |items| ==> items[i].asset.classid in DescriptionIndex(inv.descriptions) && items[i].description == DescriptionIndex(inv.descriptions)[items[i].asset.classid]
  {
    match SendRequest(resp)
    case Err(e) =>
      return Returned(Err(e));
    case Ok(inv) =>
      var index := DescriptionIndex(inv.descriptions);
      var assets := inv.assets;
      if dedup {
        assets := DedupAssets(assets);
      }
      var hydrated := Hydrate(assets, index);
      match hydrated
      case Panicked =>
        return Panicked;
      case Returned(items) =>
        assert AssetsOf(items) == assets;
        forall i | 0 <= i < |items| ensures items[i].asset.classid in index {
          assert assets[i] in assets;
        }
        return Returned(Ok(items));
  }

  // ---------------------------------------------------------------------------
  // The container filters

  const BASE_GRADE_CONTAINER: string := "Base Grade Container"

  /** The filter of `fetch_user_containers`: an item is kept when its type is
      `Base Grade Container`; an item without a type makes the `unwrap` panic. */
  function BaseGradeContainers(items: seq<FullAsset>): (r: Outcome<seq<FullAsset>>)
    ensures r.Panicked? <==> exists i :: 0 <= i < |items| && items[i].description.itemType.None?
    ensures r.Returned? ==> forall x :: x in r.value <==> x in items && x.description.itemType == Some(BASE_GRADE_CONTAINER)
  {
    if items == [] then Returned([])
    else
      var p, x := items[..|items| - 1], items[|items| - 1];
      assert items == p + [x];
      assert forall y :: y in items <==> y in p || y == x;
      assert forall i :: 0 <= i < |p| ==> items[i] == p[i];
      match BaseGradeContainers(p)
      case Panicked => Panicked
      case Returned(kept) =>
        if x.description.itemType.None? then Panicked
        else if x.description.itemType.value == BASE_GRADE_CONTAINER then Returned(kept + [x])
        else Returned(kept)
  }

  /** The filter keeps each base grade container as often as it occurs and nothing else. */
  lemma {:induction false} BaseGradeContainersCounts(items: seq<FullAsset>)
    requires BaseGradeContainers(items).Returned?
    ensures forall x :: multiset(BaseGradeContainers(items).value)[x] ==
                        (if x.description.itemType == Some(BASE_GRADE_CONTAINER) then multiset(items)[x] else 0)
  {
    if items != [] {
      var p, x := items[..|items| - 1], items[|items| - 1];
      assert items == p + [x];
      BaseGradeContainersCounts(p);
      var kept := BaseGradeContainers(p).value;
      assert multiset(items) == multiset(p) + multiset{x};
      if x.description.itemType == Some(BASE_GRADE_CONTAINER) {
        assert multiset(kept + [x]) == multiset(kept) + multiset{x};
      }
    }
  }

  /** The filter keeps the relative order of the items: filtering a concatenation is
      concatenating the filtered parts. */
  lemma {:induction false} BaseGradeContainersAppend(a: seq<FullAsset>, b: seq<FullAsset>)
    requires BaseGradeContainers(a + b).Returned?
    ensures BaseGradeContainers(a).Returned? && BaseGradeContainers(b).Returned?
    ensures BaseGradeContainers(a + b).value == BaseGradeContainers(a).value + BaseGradeContainers(b).value
  {
    if b == [] {
      assert a + b == a;
    } else {
      var p, x := b[..|b| - 1], b[|b| - 1];
      assert (a + b)[..|a + b| - 1] == a + p;
      assert (a + b)[|a + b| - 1] == x;
      BaseGradeContainersAppend(a, p);
      var ka, kp := BaseGradeContainers(a).value, BaseGradeContainers(p).value;
      if x.description.itemType == Some(BASE_GRADE_CONTAINER) {
        assert BaseGradeContainers(b).value == kp + [x];
        assert (ka + kp) + [x] == ka + (kp + [x]);
      }
    }
  }

  /** An asset of a class not in a list without repeated classes can be appended to it. */
  lemma {:induction false} DistinctSnoc(s: seq<Asset>, a: Asset)
    requires DistinctClassIds(s) && forall i :: 0 <= i < |s| ==> s[i].classid != a.classid
    ensures DistinctClassIds(s + [a])
  {
  }

  /** Items drawn from `p`, without repeated classes, stay so when the item after `p` is
      appended. */
  lemma {:induction false} KeptSnoc(p: seq<FullAsset>, x: FullAsset, kept: seq<FullAsset>)
    requires DistinctClassIds(AssetsOf(p + [x])) && DistinctClassIds(AssetsOf(kept))
    requires forall y :: y in kept ==> y in p
    ensures DistinctClassIds(AssetsOf(kept + [x]))
  {
    var all, before := AssetsOf(p + [x]), AssetsOf(kept);
    forall i | 0 <= i < |kept|
      ensures before[i].classid != x.asset.classid
    {
      assert kept[i] in kept;
      var j :| 0 <= j < |p| && p[j] == kept[i];
      assert all[j] == kept[i].asset && all[|p|] == x.asset;
    }
    DistinctSnoc(before, x.asset);
    assert AssetsOf(kept + [x]) == before + [x.asset];
  }

  /** The filter keeps a subsequence, so items without repeated classes stay without
      repeated classes. */
  lemma {:induction false} BaseGradeContainersDistinct(items: seq<FullAsset>)
    requires DistinctClassIds(AssetsOf(items)) && BaseGradeContainers(items).Returned?
    ensures DistinctClassIds(AssetsOf(BaseGradeContainers(items).value))
  {
    if items != [] {
      var p, x := items[..|items| - 1], items[|items| - 1];
      assert items == p + [x];
      assert AssetsOf(p) == AssetsOf(items)[..|p|];
      BaseGradeContainersDistinct(p);
      if x.description.itemType == Some(BASE_GRADE_CONTAINER) {
        KeptSnoc(p, x, BaseGradeContainers(p).value);
      }
    }
  }

  /** On items hydrated from `index`, the filter panics exactly when the description of one
      of their classes has no type, and otherwise keeps an item of every class whose
      description is a base grade container. */
  lemma {:induction false} HydratedContainers(items: seq<FullAsset>, index: map<nat, MarketItem>)
    requires forall i :: 0 <= i < |items| ==> items[i].asset.classid in index && items[i].description == index[items[i].asset.classid]
    ensures BaseGradeContainers(items).Panicked? <==> exists c :: c in ClassIds(AssetsOf(items)) && c in index && index[c].itemType.None?
    ensures BaseGradeContainers(items).Returned? ==>
      forall c :: c in ClassIds(AssetsOf(items)) && c in index && index[c].itemType == Some(BASE_GRADE_CONTAINER) ==>
        exists x :: x in BaseGradeContainers(items).value && x.asset.classid == c
  {
  }

  /** `fetch_user_containers`: the deduplicated, hydrated items of the inventory whose type
      is `Base Grade Container`. */
  method FetchUserContainers(resp: Response<UserInventoryResponse>)
    returns (r: Outcome<Result<seq<FullAsset>, StateError>>)
    ensures SendRequest(resp).Err? ==> r == Returned(Err(SendRequest(resp).error))
    ensures SendRequest(resp).Ok? && r.Returned? ==> r.value.Ok?
    ensures SendRequest(resp).Ok? ==>
      var inv := SendRequest(resp).value;
      var index := DescriptionIndex(inv.descriptions);
      r.Panicked? <==> !(ClassIds(inv.assets) <= index.Keys) || exists c :: c in ClassIds(inv.assets) && c in index && index[c].itemType.None?
    ensures r.Returned? && r.value.Ok? ==>
      var inv := SendRequest(resp).value;
      var index := DescriptionIndex(inv.descriptions);
      forall c :: c in ClassIds(inv.assets) && c in index && index[c].itemType == Some(BASE_GRADE_CONTAINER) ==>
        exists x :: x in r.value.value && x.asset.classid == c
    ensures r.Returned? && r.value.Ok? ==>
      var inv := SendRequest(resp).value;
      var index := DescriptionIndex(inv.descriptions);
      forall x :: x in r.value.value ==>
        && x.description.itemType == Some(BASE_GRADE_CONTAINER)
        && x.asset.classid in ClassIds(inv.assets)
        && x.asset == DedupEntry(inv.assets, x.asset.classid)
        && x.asset.classid in index && x.description == index[x.asset.classid]
    ensures r.Returned? && r.value.Ok? ==> DistinctClassIds(AssetsOf(r.value.value))
  {
    var fetched := FetchUserItems(resp, true);
    match fetched
    case Panicked =>
      return Panicked;
    case Returned(Err(e)) =>
      return Returned(Err(e));
    case Returned(Ok(items)) =>
      var inv := SendRequest(resp).value;
      var index := DescriptionIndex(inv.descriptions);
      HydratedContainers(items, index);
      var containers := BaseGradeContainers(items);
      if containers.Panicked? {
        return Panicked;
      }
      BaseGradeContainersDistinct(items);
      forall x | x in containers.value
        ensures x.asset.classid in ClassIds(SendRequest(resp).value.assets)
        ensures x.asset == DedupEntry(SendRequest(resp).value.assets, x.asset.classid)
      {
        var i :| 0 <= i < |items| && items[i] == x;
        assert AssetsOf(items)[i] == x.asset;
      }
      return Returned(Ok(containers.value));
  }

  // ---------------------------------------------------------------------------
  // get_all_csgo_containers

  const CONTAINER: string := "Container"

  /** The classes of the catalog entries typed `Container`. */
  function ContainerClasses(entries: seq<(string, BackpackItem)>): set<nat> {
    set i | 0 <= i < |entries| && entries[i].1.itemType == Some(CONTAINER) :: entries[i].1.classid
  }

  /** The `filter_map` and `collect` of `get_all_csgo_containers`, over the catalog's
      `(name, item)` entries in the order the catalog map yields them: the entries typed
      `Container` are re-keyed by class, a later one replacing an earlier one of the same
      class; entries without a type or with another type are dropped. */
  function CatalogContainers(entries: seq<(string, BackpackItem)>): (r: map<nat, BackpackItem>)
    ensures r.Keys == ContainerClasses(entries)
    ensures forall c :: c in r ==> r[c].classid == c && r[c].itemType == Some(CONTAINER)
    ensures forall c :: c in r ==> exists i :: 0 <= i < |entries| && entries[i].1 == r[c]
  {
    if entries == [] then map[]
    else
      var p, e := entries[..|entries| - 1], entries[|entries| - 1];
      assert forall i :: 0 <= i < |p| ==> entries[i] == p[i];
      var m := CatalogContainers(p);
      if e.1.itemType == Some(CONTAINER) then m[e.1.classid := e.1] else m
  }

  /** The last container entry of a class is the one the map keeps. */
  lemma {:induction false} CatalogContainersLastWins(entries: seq<(string, BackpackItem)>, i: nat)
    requires i < |entries| && entries[i].1.itemType == Some(CONTAINER)
    requires forall j :: i < j < |entries| && entries[j].1.itemType == Some(CONTAINER) ==> entries[j].1.classid != entries[i].1.classid
    ensures CatalogContainers(entries)[entries[i].1.classid] == entries[i].1
  {
    if i < |entries| - 1 {
      var p := entries[..|entries| - 1];
      assert p[i] == entries[i];
      CatalogContainersLastWins(p, i);
    }
  }

  /** When no two containers of the catalog share a class, the iteration order of the
      catalog does not matter: each container is found under its own class. */
  lemma {:induction false} CatalogContainersDistinct(entries: seq<(string, BackpackItem)>)
    requires forall i, j :: 0 <= i < j < |entries| && entries[i].1.itemType == Some(CONTAINER) && entries[j].1.itemType == Some(CONTAINER) ==> entries[i].1.classid != entries[j].1.classid
    ensures forall i :: 0 <= i < |entries| && entries[i].1.itemType == Some(CONTAINER) ==> CatalogContainers(entries)[entries[i].1.classid] == entries[i].1
  {
    forall i | 0 <= i < |entries| && entries[i].1.itemType == Some(CONTAINER)
      ensures CatalogContainers(entries)[entries[i].1.classid] == entries[i].1
    {
      CatalogContainersLastWins(entries, i);
    }
  }

  // ---------------------------------------------------------------------------
  // Request options

  const PRICE_DEFAULTS: map<string, string> := map["appid" := "730", "currency" := "3"]
  const HISTORY_DEFAULTS: map<string, string> := map["appid" := "730", "currency" := "3", "country" := "DE"]

  /** `used_options.extend(options)`: every caller option is inserted, replacing an option
      of the same name already present. */
  function Extend(used: map<string, string>, options: map<string, string>): (r: map<string, string>)
    ensures r.Keys == used.Keys + options.Keys
    ensures forall k :: k in options ==> r[k] == options[k]
    ensures forall k :: k in used && k !in options ==> r[k] == used[k]
  {
    used + options
  }

  /** The options of a price request: `appid=730` and `currency=3` unless the caller gives
      its own value for them, and every caller option. */
  lemma {:induction false} PriceOptions(options: map<string, string>)
    ensures Extend(PRICE_DEFAULTS, options).Keys == {"appid", "currency"} + options.Keys
    ensures Extend(PRICE_DEFAULTS, options)["appid"] == if "appid" in options then options["appid"] else "730"
    ensures Extend(PRICE_DEFAULTS, options)["currency"] == if "currency" in options then options["currency"] else "3"
  {
  }

  /** The options of a price-history request: the price defaults and `country=DE`, each
      unless the caller gives its own value, and every caller option. */
  lemma {:induction false} HistoryOptions(options: map<string, string>)
    ensures Extend(HISTORY_DEFAULTS, options).Keys == {"appid", "currency", "country"} + options.Keys
    ensures Extend(HISTORY_DEFAULTS, options)["appid"] == if "appid" in options then options["appid"] else "730"
    ensures Extend(HISTORY_DEFAULTS, options)["currency"] == if "currency" in options then options["currency"] else "3"
    ensures Extend(HISTORY_DEFAULTS, options)["country"] == if "country" in options then options["country"] else "DE"
  {
  }

  // ---------------------------------------------------------------------------
  // Collecting the per-item results

  /** The keys of a list of `(key, _)` pairs. */
  function SlotKeys<T>(slots: seq<(nat, T)>): set<nat> {
    set i | 0 <= i < |slots| :: slots[i].0
  }

  /** No later pair has the key of the pair at `i`. */
  predicate LastOfKey<T>(slots: seq<(nat, T)>, i: nat)
    requires i < |slots|
  {
    forall j :: i < j < |slots| ==> slots[j].0 != slots[i].0
  }

  /** The joined tasks collected into a `HashMap`: the `unwrap` of a task that panicked
      panics, otherwise every task inserts its key and result, a later one replacing an
      earlier one with the same key. */
  function Collected<T>(slots: seq<(nat, Outcome<T>)>): (r: Outcome<map<nat, T>>)
    ensures r.Returned? ==> r.value.Keys == SlotKeys(slots)
  {
    if slots == [] then Returned(map[])
    else
      var p, s := slots[..|slots| - 1], slots[|slots| - 1];
      assert forall i :: 0 <= i < |p| ==> slots[i] == p[i];
      assert SlotKeys(slots) == SlotKeys(p) + {s.0};
      match Collected(p)
      case Panicked => Panicked
      case Returned(m) => if s.1.Panicked? then Panicked else Returned(m[s.0 := s.1.value])
  }

  /** Collecting panics exactly when one of the tasks panicked. */
  lemma {:induction false} CollectedPanics<T>(slots: seq<(nat, Outcome<T>)>)
    ensures Collected(slots).Panicked? <==> exists i :: 0 <= i < |slots| && slots[i].1.Panicked?
  {
    if slots != [] {
      var p := slots[..|slots| - 1];
      CollectedPanics(p);
      assert forall i :: 0 <= i < |p| ==> slots[i] == p[i];
    }
  }

  /** Under each key the map holds the result of the last task with that key. */
  lemma {:induction false} CollectedLastWins<T>(slots: seq<(nat, Outcome<T>)>, i: nat)
    requires Collected(slots).Returned?
    requires i < |slots| && LastOfKey(slots, i)
    ensures slots[i].0 in Collected(slots).value && slots[i].1.Returned?
    ensures Collected(slots).value[slots[i].0] == slots[i].1.value
  {
    CollectedPanics(slots);
    if i < |slots| - 1 {
      var p := slots[..|slots| - 1];
      assert p[i] == slots[i];
      CollectedLastWins(p, i);
    }
  }

  /** Tasks do not affect each other: giving task `j` another result that does not panic
      (an error instead of a price, say) changes nothing under the other keys. */
  lemma {:induction false} CollectedIsolation<T>(slots: seq<(nat, Outcome<T>)>, j: nat, o: Outcome<T>)
    requires Collected(slots).Returned? && o.Returned?
    requires j < |slots|
    ensures Collected(slots[j := (slots[j].0, o)]).Returned?
    ensures Collected(slots[j := (slots[j].0, o)]).value.Keys == Collected(slots).value.Keys
    ensures forall k :: k in Collected(slots).value && k != slots[j].0 ==>
      Collected(slots[j := (slots[j].0, o)]).value[k] == Collected(slots).value[k]
  {
    var t := slots[j := (slots[j].0, o)];
    var p, q := slots[..|slots| - 1], t[..|t| - 1];
    if j == |slots| - 1 {
      assert q == p;
    } else {
      assert q == p[j := (p[j].0, o)];
      CollectedIsolation(p, j, o);
    }
  }

  /** `join_all` followed by the `collect`: a loop over the tasks in order, stopping at the
      first one that panicked. */
  method Collect<T>(slots: seq<(nat, Outcome<T>)>) returns (r: Outcome<map<nat, T>>)
    ensures r == Collected(slots)
  {
    var m: map<nat, T> := map[];
    for i := 0 to |slots|
      invariant Collected(slots[..i]) == Returned(m)
    {
      assert slots[..i + 1][..i] == slots[..i];
      if slots[i].1.Panicked? {
        CollectedPanics(slots);
        return Panicked;
      }
      m := m[slots[i].0 := slots[i].1.value];
    }
    assert slots[..|slots|] == slots;
    r := Returned(m);
  }

  /** The fan-out shared by both price functions: one task per `(key, market_hash_name)`
      pair, in input order, each ending as `slot` says for its name; then the collect. */
  method FanOut<T>(assets: seq<(nat, string)>, slot: string -> Outcome<T>) returns (r: Outcome<map<nat, T>>)
    ensures r.Panicked? <==> exists i :: 0 <= i < |assets| && slot(assets[i].1).Panicked?
    ensures r.Returned? ==> r.value.Keys == SlotKeys(assets)
    ensures r.Returned? ==> forall i :: 0 <= i < |assets| && LastOfKey(assets, i) ==>
      r.value[assets[i].0] == slot(assets[i].1).value
  {
    var requests: seq<(nat, Outcome<T>)> := [];
    for i := 0 to |assets|
      invariant |requests| == i
      invariant forall j :: 0 <= j < i ==> requests[j] == (assets[j].0, slot(assets[j].1))
    {
      var (asset, name) := assets[i];
      requests := requests + [(asset, slot(name))];
    }
    r := Collect(requests);
    CollectedPanics(requests);
    if r.Returned? {
      assert SlotKeys(requests) == SlotKeys(assets) by {
        assert forall i :: 0 <= i < |assets| ==> requests[i].0 == assets[i].0;
      }
      forall i | 0 <= i < |assets| && LastOfKey(assets, i)
        ensures r.value[assets[i].0] == slot(assets[i].1).value
      {
        assert LastOfKey(requests, i);
        CollectedLastWins(requests, i);
      }
    }
  }

  // ---------------------------------------------------------------------------
  // get_asset_prices

  /** One price task: `send_request` on the reply, whose body is deserialized into a
      `MarketPrice` by `serde_json::from_str`. A serde error of that deserialization is
      `Serde`; a decoder panic inside the task makes its join result an error whose `unwrap`
      panics. */
  function PriceSlot(resp: Response<JsonObject>): (r: Outcome<Result<MarketPrice, StateError>>)
    ensures SendRequest(resp).Err? ==> r == Returned(Err(SendRequest(resp).error))
    ensures r.Panicked? <==> resp.Replied? && resp.status == 200 && resp.body.Json? && DecodeMarketPrice(resp.body.value).Panicked?
    ensures resp.Replied? && resp.status == 200 && resp.body.Json? ==>
      (r.Returned? && r.value.Ok? <==> DecodeMarketPrice(resp.body.value).Returned? && DecodeMarketPrice(resp.body.value).value.Some?)
    ensures r.Returned? && r.value.Ok? ==> resp.Replied? && resp.status == 200 && resp.body.Json? && DecodeMarketPrice(resp.body.value) == Returned(Some(r.value.value))
    ensures resp.Replied? && resp.status == 200 && resp.body.Json? && DecodeMarketPrice(resp.body.value) == Returned(None) ==> r == Returned(Err(Serde))
  {
    match SendRequest(resp)
    case Err(e) => Returned(Err(e))
    case Ok(obj) =>
      match DecodeMarketPrice(obj)
      case Panicked => Panicked
      case Returned(None) => Returned(Err(Serde))
      case Returned(Some(price)) => Returned(Ok(price))
  }

  /** A 200 reply carrying the market's texts for a price becomes that price. */
  lemma {:induction false} PriceSlotDecodes(success: bool, median: nat, volume: nat, lowest: nat)
    requires volume < USIZE_LIMIT
    ensures PriceSlot(Replied(200, Json(JsonObject([(Success, JsonBool(success)),
                                                    (LowestPrice, JsonString(FormatEuroCents(lowest))),
                                                    (Volume, JsonString(GroupThousands(Digits(volume)))),
                                                    (MedianPrice, JsonString(FormatEuroCents(median)))], true))))
      == Returned(Ok(MarketPrice(success, Finite(false, median, -2), volume, Finite(false, lowest, -2))))
  {
    MarketPriceRoundTrip(success, median, volume, lowest);
  }

  /** `get_asset_prices`: `net` answers the request for a set of options and a market hash
      name. The call panics exactly when one task panics; otherwise the map has one entry
      per input key, holding the result of the key's last occurrence under the merged
      options. */
  method GetAssetPrices(assets: seq<(nat, string)>, options: map<string, string>,
                        net: (map<string, string>, string) -> Response<JsonObject>)
    returns (r: Outcome<map<nat, Result<MarketPrice, StateError>>>)
    ensures r.Panicked? <==> exists i :: 0 <= i < |assets| && PriceSlot(net(Extend(PRICE_DEFAULTS, options), assets[i].1)).Panicked?
    ensures r.Returned? ==> r.value.Keys == SlotKeys(assets)
    ensures r.Returned? ==> forall i :: 0 <= i < |assets| && LastOfKey(assets, i) ==>
      r.value[assets[i].0] == PriceSlot(net(Extend(PRICE_DEFAULTS, options), assets[i].1)).value
  {
    var usedOptions := PRICE_DEFAULTS;
    usedOptions := Extend(usedOptions, options);
    r := FanOut(assets, name => PriceSlot(net(usedOptions, name)));
  }

  // ---------------------------------------------------------------------------
  // get_asset_price_histories

  const HISTORY_LENGTH: nat := 500

  /** `prices[prices.len() - 500..]`: the last 500 points; with fewer points the `usize`
      subtraction underflows and the call panics. */
  function LastHistoryPoints(prices: seq<HistoryPoint>): (r: Outcome<seq<HistoryPoint>>)
    ensures r.Returned? <==> |prices| >= HISTORY_LENGTH
    ensures r.Returned? ==> |r.value| == HISTORY_LENGTH && prices == prices[..|prices| - HISTORY_LENGTH] + r.value
  {
    if |prices| < HISTORY_LENGTH then Panicked else Returned(prices[|prices| - HISTORY_LENGTH..])
  }

  /** One history task together with the truncation applied after the join: errors pass
      through untouched, a history is cut to its last 500 points. */
  function HistorySlot(resp: Response<PriceHistoryResponse>): (r: Outcome<Result<seq<HistoryPoint>, StateError>>)
    ensures SendRequest(resp).Err? ==> r == Returned(Err(SendRequest(resp).error))
    ensures SendRequest(resp).Ok? ==>
      var prices := SendRequest(resp).value.prices;
      && (r.Panicked? <==> |prices| < HISTORY_LENGTH)
      && (r.Returned? ==> r.value.Ok? && |r.value.value| == HISTORY_LENGTH && prices == prices[..|prices| - HISTORY_LENGTH] + r.value.value)
  {
    match SendRequest(resp)
    case Err(e) => Returned(Err(e))
    case Ok(history) =>
      match LastHistoryPoints(history.prices)
      case Panicked => Panicked
      case Returned(points) => Returned(Ok(points))
  }

  /** `get_asset_price_histories`: as `get_asset_prices` with the history defaults, every
      successful history cut to its last 500 points. */
  method GetAssetPriceHistories(assets: seq<(nat, string)>, options: map<string, string>,
                                net: (map<string, string>, string) -> Response<PriceHistoryResponse>)
    returns (r: Outcome<map<nat, Result<seq<HistoryPoint>, StateError>>>)
    ensures r.Panicked? <==> exists i :: 0 <= i < |assets| && HistorySlot(net(Extend(HISTORY_DEFAULTS, options), assets[i].1)).Panicked?
    ensures r.Returned? ==> r.value.Keys == SlotKeys(assets)
    ensures r.Returned? ==> forall i :: 0 <= i < |assets| && LastOfKey(assets, i) ==>
      r.value[assets[i].0] == HistorySlot(net(Extend(HISTORY_DEFAULTS, options), assets[i].1)).value
  {
    var usedOptions := HISTORY_DEFAULTS;
    usedOptions := Extend(usedOptions, options);
    r := FanOut(assets, name => HistorySlot(net(usedOptions, name)));
  }
}
