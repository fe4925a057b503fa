/** The game-over screen's list of collected upgrades: each distinct name
  * once, with how many times it was picked, in order of first pick. */
module GameOver {

  /** How many times `name` occurs in `names`. */
  function Occurrences(names: seq<string>, name: string): nat {
    multiset(names)[name]
  }

  predicate Distinct(names: seq<string>) {
    forall i, j :: 0 <= i < j < |names| ==> names[i] != names[j]
  }

  /** Where `name` was first picked in `names`. */
  function FirstPick(names: seq<string>, name: string): (p: nat)
    requires name in names
    ensures p < |names| && names[p] == name
    ensures forall q :: 0 <= q < p ==> names[q] != name
  {
    if names[0] == name then 0
    else
      assert name in names[1..] by { var q :| 0 <= q < |names| && names[q] == name; assert names[1..][q - 1] == name; }
      1 + FirstPick(names[1..], name)
  }

  /** The first pick is the only pick with no earlier pick of the same name. */
  lemma FirstPickUnique(names: seq<string>, name: string, p: nat)
    requires p < |names| && names[p] == name
    requires forall q :: 0 <= q < p ==> names[q] != name
    ensures FirstPick(names, name) == p
  {
  }

  /** The names of `order` were first picked in that order, all before
    * pick `k`. */
  predicate PickOrdered(names: seq<string>, order: seq<string>, k: nat) {
    && (forall i :: 0 <= i < |order| ==> order[i] in names && FirstPick(names, order[i]) < k)
    && (forall i, j :: 0 <= i < j < |order| ==> FirstPick(names, order[i]) < FirstPick(names, order[j]))
  }

  /** The distinct names, each where it was first picked: a name joins
    * the end when it is picked for the first time. */
  function FirstPicks(names: seq<string>): seq<string> {
    if names == [] then []
    else
      var init, last := names[..|names| - 1], names[|names| - 1];
      if last in init then FirstPicks(init) else FirstPicks(init) + [last]
  }

  /** The first picks are listed in the order they were made. */
  lemma {:induction false} FirstPicksOrdered(names: seq<string>)
    ensures PickOrdered(names, FirstPicks(names), |names|)
  {
    if names != [] {
      var init, last := names[..|names| - 1], names[|names| - 1];
      var order := FirstPicks(init);
      FirstPicksOrdered(init);
      forall i | 0 <= i < |order|
        ensures order[i] in names && FirstPick(names, order[i]) == FirstPick(init, order[i])
      {
        var p := FirstPick(init, order[i]);
        assert names[p] == order[i];
        FirstPickUnique(names, order[i], p);
      }
      if last !in init {
        assert forall q :: 0 <= q < |init| ==> names[q] != last by {
          forall q | 0 <= q < |init| ensures names[q] != last { assert names[q] == init[q]; }
        }
        FirstPickUnique(names, last, |init|);
        var order' := order + [last];
        assert forall i :: 0 <= i < |order| ==> order'[i] == order[i];
      }
    }
  }

  /** The sum of the counts of the names in `order`. */
  function Total(order: seq<string>, counts: map<string, nat>): nat {
    if order == [] then 0
    else
      var last := order[|order| - 1];
      Total(order[..|order| - 1], counts) + (if last in counts then counts[last] else 0)
  }

  /** Counts that agree on the names in `order` give the same total. */
  lemma {:induction false} TotalFrame(order: seq<string>, c1: map<string, nat>, c2: map<string, nat>)
    requires forall n :: n in order ==> (n in c1 <==> n in c2) && (n in c1 ==> c1[n] == c2[n])
    ensures Total(order, c1) == Total(order, c2)
  {
    if order != [] {
      TotalFrame(order[..|order| - 1], c1, c2);
    }
  }

  /** Raising the count of one listed name by one raises the total by one. */
  lemma {:induction false} TotalBump(order: seq<string>, counts: map<string, nat>, u: string)
    requires Distinct(order) && u in order && u in counts
    ensures Total(order, counts[u := counts[u] + 1]) == Total(order, counts) + 1
  {
    var prefix := order[..|order| - 1];
    var last := order[|order| - 1];
    if last == u {
      assert u !in prefix;
      TotalFrame(prefix, counts, counts[u := counts[u] + 1]);
    } else {
      assert u in prefix;
      TotalBump(prefix, counts, u);
    }
  }

  /** The `counts` dictionary together with the order its keys were
    * inserted in, built by one pass over the names. */
  method CountUpgrades(upgrades: seq<string>) returns (counts: map<string, nat>, order: seq<string>)
    ensures counts.Keys == set u | u in upgrades
    ensures forall n :: n in counts ==> counts[n] == Occurrences(upgrades, n)
    ensures Distinct(order) && (set n | n in order) == counts.Keys
    ensures forall i :: 0 <= i < |order| ==> order[i] in upgrades
    ensures order == FirstPicks(upgrades)
    ensures Total(order, counts) == |upgrades|
  {
    counts := map[];
    order := [];
    var k := 0;
    while k < |upgrades|
      invariant 0 <= k <= |upgrades|
      invariant counts.Keys == set u | u in upgrades[..k]
      invariant forall n :: n in counts ==> counts[n] == Occurrences(upgrades[..k], n)
      invariant Distinct(order) && (set n | n in order) == counts.Keys
      invariant forall i :: 0 <= i < |order| ==> order[i] in upgrades[..k]
      invariant order == FirstPicks(upgrades[..k])
      invariant Total(order, counts) == k
    {
      var u := upgrades[k];
      assert upgrades[..k + 1] == upgrades[..k] + [u];
      if u in counts {
        TotalBump(order, counts, u);
        counts := counts[u := counts[u] + 1];
      } else {
        assert u !in order;
        assert (order + [u])[..|order|] == order;
        TotalFrame(order, counts, counts[u := 1]);
        counts := counts[u := 1];
        order := order + [u];
      }
      k := k + 1;
    }
    assert upgrades[..k] == upgrades;
  }

  /** What the screen lists under "Upgrades Collected". */
  datatype UpgradeList = NoUpgradesCollected | Entries(entries: seq<(string, nat)>)

  /** The list shown for the picked names: the fallback exactly when
    * nothing was picked, otherwise one entry per distinct name with its
    * number of picks. */
  method Summarize(upgrades: seq<string>) returns (list: UpgradeList)
    ensures list.NoUpgradesCollected? <==> upgrades == []
    ensures list.Entries? ==>
      && (forall i :: 0 <= i < |list.entries| ==>
            list.entries[i].0 in upgrades && list.entries[i].1 == Occurrences(upgrades, list.entries[i].0))
      && (forall u :: u in upgrades ==> exists i :: 0 <= i < |list.entries| && list.entries[i].0 == u)
      && (forall i, j :: 0 <= i < j < |list.entries| ==> list.entries[i].0 != list.entries[j].0)
      && |list.entries| == |FirstPicks(upgrades)|
      && (forall i :: 0 <= i < |list.entries| ==> list.entries[i].0 == FirstPicks(upgrades)[i])
      && EntriesTotal(list.entries) == |upgrades|
  {
    var counts, order := CountUpgrades(upgrades);
    if |counts| > 0 {
      var entries := seq(|order|, i requires 0 <= i < |order| => (order[i], counts[order[i]]));
      forall u | u in upgrades
        ensures exists i :: 0 <= i < |entries| && entries[i].0 == u
      {
        assert u in counts;
        var i :| 0 <= i < |order| && order[i] == u;
        assert entries[i].0 == u;
      }
      EntriesTotalIsTotal(order, counts, entries);
      list := Entries(entries);
    } else {
      list := NoUpgradesCollected;
    }
  }

  /** Over the entries, the counts add up to the number of picks. */
  function EntriesTotal(entries: seq<(string, nat)>): nat {
    if entries == [] then 0 else EntriesTotal(entries[..|entries| - 1]) + entries[|entries| - 1].1
  }

  lemma {:induction false} EntriesTotalIsTotal(order: seq<string>, counts: map<string, nat>, entries: seq<(string, nat)>)
    requires |entries| == |order|
    requires forall i :: 0 <= i < |order| ==> order[i] in counts && entries[i] == (order[i], counts[order[i]])
    ensures EntriesTotal(entries) == Total(order, counts)
  {
    if order != [] {
      var n := |order| - 1;
      EntriesTotalIsTotal(order[..n], counts, entries[..n]);
    }
  }
}
