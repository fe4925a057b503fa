/** The rules the game loop applies each frame, stated on plain values:
  * list removal by `indexOf`, the multishot fan, target choice, the aura
  * and slash passes, XP orbs, and enemies moving one after another. */
module Combat {
  import opened Geometry
  import Progression
  import Enemies

  /** The elements at `i` and `j` are different objects. */
  predicate Apart<T(==)>(s: seq<T>, i: int, j: int)
    requires 0 <= i < |s| && 0 <= j < |s|
  {
    s[i] != s[j]
  }

  /** No element is listed twice.  The pairs are compared through `Apart`,
    * so a proof learns about a pair only when it asks (`DistinctAt`). */
  predicate Distinct<T(==)>(s: seq<T>) {
    forall i, j :: 0 <= i < j < |s| ==> Apart(s, i, j)
  }

  lemma DistinctAt<T>(s: seq<T>, i: int, j: int)
    requires Distinct(s) && 0 <= i < |s| && 0 <= j < |s| && i != j
    ensures s[i] != s[j]
  {
    if i < j { assert Apart(s, i, j); } else { assert Apart(s, j, i); }
  }

  /** Every other element differs from the one at `j`. */
  lemma DistinctFrom<T>(s: seq<T>, j: int)
    requires Distinct(s) && 0 <= j < |s|
    ensures forall k :: 0 <= k < |s| && k != j ==> s[k] != s[j]
  {
    forall k | 0 <= k < |s| && k != j
      ensures s[k] != s[j]
    {
      DistinctAt(s, k, j);
    }
  }

  lemma DistinctPrefix<T>(s: seq<T>, n: int)
    requires Distinct(s) && 0 <= n <= |s|
    ensures Distinct(s[..n])
  {
    forall i, j | 0 <= i < j < n
      ensures Apart(s[..n], i, j)
    {
      DistinctAt(s, i, j);
    }
  }

  lemma DistinctAppend<T>(s: seq<T>, x: T)
    requires Distinct(s) && x !in s
    ensures Distinct(s + [x])
  {
    var r := s + [x];
    forall i, j | 0 <= i < j < |r|
      ensures Apart(r, i, j)
    {
      if j < |s| { DistinctAt(s, i, j); }
    }
  }

  // ---------------------------------------------------------------------------
  // Removal by `indexOf` and `splice`.

  /** `s.indexOf(x)`: the first position holding `x`, or -1. */
  function IndexOf<T(==)>(s: seq<T>, x: T): (i: int)
    ensures -1 <= i < |s|
    ensures i == -1 <==> x !in s
    ensures i >= 0 ==> s[i] == x && forall j :: 0 <= j < i ==> s[j] != x
  {
    if s == [] then -1
    else if s[0] == x then 0
    else
      var k := IndexOf(s[1..], x);
      if k == -1 then -1 else k + 1
  }

  /** `s.splice(i, 1)`. */
  function RemoveAt<T>(s: seq<T>, i: int): (r: seq<T>)
    requires 0 <= i < |s|
    ensures |r| == |s| - 1
  {
    s[..i] + s[i + 1..]
  }

  /** The elements before `i` keep their places and those after it move
    * down by one. */
  lemma RemoveAtShifts<T>(s: seq<T>, i: int)
    requires 0 <= i < |s|
    ensures forall j :: 0 <= j < i ==> RemoveAt(s, i)[j] == s[j]
    ensures forall j :: i <= j < |s| - 1 ==> RemoveAt(s, i)[j] == s[j + 1]
  {
  }

  /** Removes the first occurrence of `x`, if any. */
  function RemoveFirst<T(==)>(s: seq<T>, x: T): (r: seq<T>)
    ensures x !in s ==> r == s
    ensures x in s ==> |r| == |s| - 1
  {
    var i := IndexOf(s, x);
    if i > -1 then RemoveAt(s, i) else s
  }

  /** In a list without repeats, the element at `i` is found at `i`. */
  lemma IndexOfDistinct<T>(s: seq<T>, i: int)
    requires Distinct(s) && 0 <= i < |s|
    ensures IndexOf(s, s[i]) == i
  {
    var r := IndexOf(s, s[i]);
    if r != i {
      DistinctAt(s, r, i);
    }
  }

  /** Removing from a list without repeats removes exactly that element
    * and keeps the others in order. */
  lemma RemoveFirstDistinct<T>(s: seq<T>, x: T)
    requires Distinct(s)
    ensures var r := RemoveFirst(s, x);
      && Distinct(r)
      && x !in r
      && (x in s ==> |r| == |s| - 1)
      && (x !in s ==> r == s)
      && (forall y :: y in r <==> y in s && y != x)
  {
    var i := IndexOf(s, x);
    if i > -1 {
      var r := RemoveAt(s, i);
      RemoveAtShifts(s, i);
      forall a, b | 0 <= a < b < |r|
        ensures Apart(r, a, b)
      {
        DistinctAt(s, if a < i then a else a + 1, if b < i then b else b + 1);
      }
      DistinctFrom(s, i);
      forall y
        ensures y in r <==> y in s && y != x
      {
        if y in s && y != x {
          var j :| 0 <= j < |s| && s[j] == y;
          assert j != i;
          if j < i { assert r[j] == y; } else { assert r[j - 1] == y; }
        }
      }
    }
  }

  // ---------------------------------------------------------------------------
  // The multishot fan.

  const SpreadAngle := 0.2

  /** The rotation of the `i`-th of `count` snowballs, centred on 0. */
  function FanOffset(i: int, count: int): (a: real)
    ensures a == 0.0 <==> 2 * i == count - 1
    ensures a < 0.0 <==> 2 * i < count - 1
  {
    (i as real - (count - 1) as real / 2.0) * SpreadAngle
  }

  /** The fan is symmetric: the `i`-th shot from either end has opposite
    * offsets, so an odd fan has its middle shot straight ahead. */
  lemma FanSymmetric(i: int, count: int)
    requires 0 <= i < count
    ensures FanOffset(count - 1 - i, count) == -FanOffset(i, count)
    ensures count % 2 == 1 ==> FanOffset(count / 2, count) == 0.0
  {
  }

  /** The sum of the first `m` offsets of a fan of `count`. */
  function FanSum(m: nat, count: int): real {
    if m == 0 then 0.0 else FanSum(m - 1, count) + FanOffset(m - 1, count)
  }

  lemma {:induction false} FanSumClosed(m: nat, count: int)
    ensures FanSum(m, count) == SpreadAngle * ((m * (m - 1)) as real / 2.0 - (m as real) * (count - 1) as real / 2.0)
  {
    if m > 0 {
      FanSumClosed(m - 1, count);
      var a, c := (m - 1) as real, (count - 1) as real;
      PairsAsReal(m - 1);
      PairsAsReal(m);
      FanStepAlgebra(a, c);
    }
  }

  /** The cast of `n * (n - 1)` is the product of the casts. */
  lemma PairsAsReal(n: int)
    ensures (n * (n - 1)) as real == (n as real) * (n as real - 1.0)
  {
  }

  /** One more offset, `a - c / 2`, moves the closed form from `a` to `a + 1`. */
  lemma FanStepAlgebra(a: real, c: real)
    ensures a * (a - 1.0) / 2.0 - a * c / 2.0 + (a - c / 2.0) == (a + 1.0) * ((a + 1.0) - 1.0) / 2.0 - (a + 1.0) * c / 2.0
  {
  }


  /** The offsets of a whole fan add up to zero: the volley is aimed at the
    * target on average. */
  lemma FanSumZero(count: nat)
    ensures FanSum(count, count) == 0.0
  {
    FanSumClosed(count, count);
    assert (count * (count - 1)) as real == (count as real) * (count - 1) as real;
  }

  // ---------------------------------------------------------------------------
  // Target choice.

  /** `k` is the first position with the strictly smallest distance below
    * `range`, or -1 when no distance is below it. */
  predicate IsNearest(ds: seq<real>, range: real, k: int) {
    if k == -1 then forall j :: 0 <= j < |ds| ==> ds[j] >= range
    else
      && 0 <= k < |ds| && ds[k] < range
      && (forall j :: 0 <= j < k ==> ds[k] < ds[j])
      && (forall j :: k < j < |ds| ==> ds[k] <= ds[j])
  }

  /** There is only one such position. */
  lemma NearestUnique(ds: seq<real>, range: real, k1: int, k2: int)
    requires IsNearest(ds, range, k1) && IsNearest(ds, range, k2)
    ensures k1 == k2
  {
  }

  /** `j` is the last position with a distance below `r`, or -1 when there
    * is none: what a scan from the back stops at. */
  predicate IsLastWithin(ds: seq<real>, r: real, j: int) {
    if j == -1 then forall k :: 0 <= k < |ds| ==> ds[k] >= r
    else 0 <= j < |ds| && ds[j] < r && forall k :: j < k < |ds| ==> ds[k] >= r
  }

  // ---------------------------------------------------------------------------
  // The aura and slash passes.

  /** What one pass does to an enemy: misses it, hurts it, kills it, or
    * skips it because the enemy before it was just removed from the list
    * being walked. */
  datatype Fate = Missed | Hurt | Killed | Skipped

  predicate Struck(f: Fate) { f == Hurt || f == Killed }

  /** The fate of each enemy in a forward pass dealing `amount` to the live
    * enemies in reach.  Killing an enemy splices it out of the list being
    * walked, so the enemy after it is not visited. */
  function Fates(reach: seq<bool>, health: seq<real>, dead: seq<bool>, amount: real): (r: seq<Fate>)
    requires |reach| == |health| == |dead|
    ensures |r| == |reach|
    ensures forall k :: 0 <= k < |r| && r[k] != Skipped ==> (Struck(r[k]) <==> reach[k] && !dead[k])
    ensures forall k :: 0 <= k < |r| && r[k] != Skipped ==>
      (r[k] == Killed <==> reach[k] && !dead[k] && health[k] - amount <= 0.0)
    decreases |reach|
  {
    if reach == [] then []
    else if !reach[0] || dead[0] then [Missed] + Fates(reach[1..], health[1..], dead[1..], amount)
    else if health[0] - amount > 0.0 then [Hurt] + Fates(reach[1..], health[1..], dead[1..], amount)
    else if |reach| == 1 then [Killed]
    else [Killed, Skipped] + Fates(reach[2..], health[2..], dead[2..], amount)
  }

  /** The elements of `s` whose fate is not `Killed`, in order. */
  function Survivors<T>(s: seq<T>, fates: seq<Fate>): (r: seq<T>)
    requires |s| == |fates|
    ensures |r| <= |s|
    ensures forall x :: x in r ==> x in s
  {
    if s == [] then []
    else
      var n := |s| - 1;
      Survivors(s[..n], fates[..n]) + (if fates[n] == Killed then [] else [s[n]])
  }

  /** The number of kills. */
  function Kills(fates: seq<Fate>): (n: nat)
    ensures n <= |fates|
  {
    if fates == [] then 0
    else Kills(fates[..|fates| - 1]) + (if fates[|fates| - 1] == Killed then 1 else 0)
  }

  /** One orb per kill, at the killed enemy's position, in order. */
  function Drops(ps: seq<Vec3>, fates: seq<Fate>): (r: seq<Orb>)
    requires |ps| == |fates|
    ensures |r| == Kills(fates)
    ensures forall k :: 0 <= k < |r| ==> r[k].value == Progression.OrbValue
  {
    if ps == [] then []
    else
      var n := |ps| - 1;
      Drops(ps[..n], fates[..n]) + (if fates[n] == Killed then [Drop(ps[n])] else [])
  }

  /** Survivors and kills make up the whole list. */
  lemma {:induction false} SurvivorsCount<T>(s: seq<T>, fates: seq<Fate>)
    requires |s| == |fates|
    ensures |Survivors(s, fates)| + Kills(fates) == |s|
  {
    if s != [] {
      var n := |s| - 1;
      SurvivorsCount(s[..n], fates[..n]);
    }
  }

  /** In a list without repeats, an element survives exactly when it is
    * not killed, and the survivors have no repeats either. */
  lemma {:induction false} SurvivorsMembers<T>(s: seq<T>, fates: seq<Fate>)
    requires |s| == |fates| && Distinct(s)
    ensures Distinct(Survivors(s, fates))
    ensures forall k :: 0 <= k < |s| ==> (s[k] in Survivors(s, fates) <==> fates[k] != Killed)
  {
    if s != [] {
      var n := |s| - 1;
      var p, f := s[..n], fates[..n];
      DistinctPrefix(s, n);
      SurvivorsMembers(p, f);
      DistinctFrom(s, n);
      assert s[n] !in p;
      assert s[n] !in Survivors(p, f);
      if fates[n] != Killed {
        DistinctAppend(Survivors(p, f), s[n]);
      } else {
        assert Survivors(s, fates) == Survivors(p, f);
      }
      forall k | 0 <= k < n
        ensures s[k] in Survivors(s, fates) <==> fates[k] != Killed
      {
        assert p[k] == s[k] && f[k] == fates[k];
      }
    }
  }

  /** The positions closer than `radius` to the player. */
  function Reach(playerPos: Vec3, ps: seq<Vec3>, radius: real, ops: Ops): (r: seq<bool>)
    ensures |r| == |ps|
    ensures forall k :: 0 <= k < |ps| ==> (r[k] <==> Distance(playerPos, ps[k], ops) < radius)
  {
    seq(|ps|, k requires 0 <= k < |ps| => Distance(playerPos, ps[k], ops) < radius)
  }

  /** Taking one more element into the processed prefix. */
  lemma ExtendPrefix<T>(s: seq<T>, ps: seq<Vec3>, fates: seq<Fate>, j: int)
    requires |s| == |ps| == |fates| && 0 <= j < |s|
    ensures Survivors(s[..j + 1], fates[..j + 1]) == Survivors(s[..j], fates[..j]) + (if fates[j] == Killed then [] else [s[j]])
    ensures Drops(ps[..j + 1], fates[..j + 1]) == Drops(ps[..j], fates[..j]) + (if fates[j] == Killed then [Drop(ps[j])] else [])
    ensures Kills(fates[..j + 1]) == Kills(fates[..j]) + (if fates[j] == Killed then 1 else 0)
  {
    assert s[..j + 1][..j] == s[..j];
    assert ps[..j + 1][..j] == ps[..j];
    assert fates[..j + 1][..j] == fates[..j];
  }

  /** After a kill the next enemy is skipped: it is neither hurt nor
    * killed, whatever its health and position. */
  lemma SkipAfterKill(reach: seq<bool>, health: seq<real>, dead: seq<bool>, amount: real, k: int)
    requires |reach| == |health| == |dead|
    requires 0 <= k < |reach| - 1 && Fates(reach, health, dead, amount)[k] == Killed
    ensures !Struck(Fates(reach, health, dead, amount)[k + 1])
  {
    SkippedExactlyAfterKill(reach, health, dead, amount, k + 1);
  }

  /** An enemy is passed over exactly when the one before it was killed. */
  lemma {:induction false} SkippedExactlyAfterKill(reach: seq<bool>, health: seq<real>, dead: seq<bool>, amount: real, k: int)
    requires |reach| == |health| == |dead| && 0 <= k < |reach|
    ensures var r := Fates(reach, health, dead, amount);
      r[k] == Skipped <==> k > 0 && r[k - 1] == Killed
    decreases |reach|
  {
    var r := Fates(reach, health, dead, amount);
    if !reach[0] || dead[0] || health[0] - amount > 0.0 {
      var t := Fates(reach[1..], health[1..], dead[1..], amount);
      assert r == [r[0]] + t && r[0] != Killed && r[0] != Skipped;
      if k > 0 {
        SkippedExactlyAfterKill(reach[1..], health[1..], dead[1..], amount, k - 1);
        assert r[k] == t[k - 1];
        assert k > 1 ==> r[k - 1] == t[k - 2];
      }
    } else if |reach| > 1 {
      var t := Fates(reach[2..], health[2..], dead[2..], amount);
      assert r == [Killed, Skipped] + t;
      if k > 1 {
        SkippedExactlyAfterKill(reach[2..], health[2..], dead[2..], amount, k - 2);
        assert r[k] == t[k - 2];
        assert k > 2 ==> r[k - 1] == t[k - 3];
      }
    }
  }

  /** The list a forward pass over `E` is walking once it has visited the
    * entries before `j`: the survivors so far, then the entries not yet
    * reached. */
  function Walked<T>(E: seq<T>, F: seq<Fate>, j: int): (w: seq<T>)
    requires |E| == |F| && 0 <= j <= |E|
    ensures |w| == |Survivors(E[..j], F[..j])| + (|E| - j)
  {
    Survivors(E[..j], F[..j]) + E[j..]
  }

  /** Entry `m` of the current list is entry `m` of the walked list. */
  ghost predicate InPlace<T>(E: seq<T>, F: seq<Fate>, j: int, cur: seq<T>, m: int)
    requires |E| == |F| && 0 <= j <= |E| && 0 <= m < |cur| == |Walked(E, F, j)|
  {
    cur[m] == Walked(E, F, j)[m]
  }

  /** Where a forward pass over a list stands after visiting the original
    * entries `E` before `j`: `j` is an entry the pass visits, the current
    * list `cur` is the walked list (stated entry by entry, so that a proof
    * compares entries only where it asks), and the index `i` points at
    * entry `j`. */
  ghost predicate PassAt<T>(E: seq<T>, F: seq<Fate>, j: int, i: int, cur: seq<T>)
    requires |E| == |F|
  {
    && 0 <= j <= |E|
    && (j < |E| ==> F[j] != Skipped)
    && |cur| == |Walked(E, F, j)|
    && (forall m :: 0 <= m < |cur| ==> InPlace(E, F, j, cur, m))
    && (j < |E| ==> i == |Survivors(E[..j], F[..j])|)
    && (j == |E| ==> i >= |cur|)
  }

  /** `PassAt` says that the current list is the walked list. */
  lemma PassAtList<T>(E: seq<T>, F: seq<Fate>, j: int, i: int, cur: seq<T>)
    requires |E| == |F| && 0 <= j <= |E|
    ensures PassAt(E, F, j, i, cur) <==>
      && (j < |E| ==> F[j] != Skipped)
      && cur == Walked(E, F, j)
      && (j < |E| ==> i == |Survivors(E[..j], F[..j])|)
      && (j == |E| ==> i >= |cur|)
  {
    if PassAt(E, F, j, i, cur) {
      forall m | 0 <= m < |cur|
        ensures cur[m] == Walked(E, F, j)[m]
      {
        assert InPlace(E, F, j, cur, m);
      }
    }
  }

  /** The next original entry the pass visits after entry `j`. */
  function NextJ(F: seq<Fate>, j: int): (r: int)
    requires 0 <= j < |F|
    ensures j < r <= |F| && r <= j + 2
  {
    if F[j] == Killed && j + 1 < |F| then j + 2 else j + 1
  }

  /** The pass starts at the first entry. */
  lemma PassStart<T>(E: seq<T>, reach: seq<bool>, health: seq<real>, dead: seq<bool>, amount: real)
    requires |E| == |reach| == |health| == |dead|
    ensures PassAt(E, Fates(reach, health, dead, amount), 0, 0, E)
  {
    var F := Fates(reach, health, dead, amount);
    if E != [] {
      SkippedExactlyAfterKill(reach, health, dead, amount, 0);
    }
    assert E[..0] == [] && F[..0] == [] && E[0..] == E;
    PassAtList(E, F, 0, 0, E);
  }

  /** The pass ends when its index runs off the current list: every entry
    * has been visited and the current list holds the survivors. */
  lemma PassEnd<T>(E: seq<T>, F: seq<Fate>, j: int, i: int, cur: seq<T>)
    requires |E| == |F| && PassAt(E, F, j, i, cur) && i >= |cur|
    ensures j == |E| && cur == Survivors(E, F)
  {
    PassAtList(E, F, j, i, cur);
    assert E[..|E|] == E && F[..|F|] == F && E[|E|..] == [];
  }

  /** Every entry is skipped exactly when the one before it was killed. */
  ghost predicate SkipsFollowKills(F: seq<Fate>) {
    forall k :: 0 <= k < |F| ==> (F[k] == Skipped <==> k > 0 && F[k - 1] == Killed)
  }

  lemma FatesSkipsFollowKills(reach: seq<bool>, health: seq<real>, dead: seq<bool>, amount: real)
    requires |reach| == |health| == |dead|
    ensures SkipsFollowKills(Fates(reach, health, dead, amount))
  {
    forall k | 0 <= k < |reach| {
      SkippedExactlyAfterKill(reach, health, dead, amount, k);
    }
  }

  /** The entries a visit passes over are the skipped ones, and the next
    * one visited is not skipped. */
  lemma FatesStep(F: seq<Fate>, reach: seq<bool>, health: seq<real>, dead: seq<bool>, amount: real, j: int)
    requires |reach| == |health| == |dead| && F == Fates(reach, health, dead, amount)
    requires 0 <= j < |F| && F[j] != Skipped
    ensures forall k :: j < k < NextJ(F, j) ==> F[k] == Skipped
    ensures NextJ(F, j) < |F| ==> F[NextJ(F, j)] != Skipped
  {
    FatesSkipsFollowKills(reach, health, dead, amount);
    SkipStep(F, j);
  }

  lemma SkipStep(F: seq<Fate>, j: int)
    requires SkipsFollowKills(F) && 0 <= j < |F| && F[j] != Skipped
    ensures forall k :: j < k < NextJ(F, j) ==> F[k] == Skipped
    ensures NextJ(F, j) < |F| ==> F[NextJ(F, j)] != Skipped
  {
    if j + 1 < |F| {
      assert F[j + 1] == Skipped <==> F[j] == Killed;
      if j + 2 < |F| {
        assert F[j + 2] == Skipped <==> F[j + 1] == Killed;
      }
    }
  }

  /** Some entry among the first `n` was struck. */
  predicate AnyStruck(F: seq<Fate>, n: int) {
    exists k :: 0 <= k < n && k < |F| && Struck(F[k])
  }

  /** A step of the pass strikes an entry exactly when it strikes entry `j`:
    * the entries it passes over are skipped. */
  lemma AnyStruckStep(F: seq<Fate>, j: int)
    requires 0 <= j < |F| && forall k :: j < k < NextJ(F, j) ==> F[k] == Skipped
    ensures AnyStruck(F, NextJ(F, j)) <==> AnyStruck(F, j) || Struck(F[j])
  {
    if AnyStruck(F, NextJ(F, j)) && !Struck(F[j]) {
      var k :| 0 <= k < NextJ(F, j) && k < |F| && Struck(F[k]);
      assert k < j;
    }
  }

  /** The entry the pass visits is the next original one, found at `i`. */
  /** Over a pass's fates, the entries struck up to the next live entry
    * are those struck before `j` and `j` itself. */
  lemma FatesStruckStep(F: seq<Fate>, reach: seq<bool>, health: seq<real>, dead: seq<bool>, amount: real, j: int)
    requires |reach| == |health| == |dead| && F == Fates(reach, health, dead, amount)
    requires 0 <= j < |F| && F[j] != Skipped
    ensures AnyStruck(F, NextJ(F, j)) <==> AnyStruck(F, j) || Struck(F[j])
  {
    FatesStep(F, reach, health, dead, amount, j);
    AnyStruckStep(F, j);
  }

  lemma PassLookup<T>(E: seq<T>, F: seq<Fate>, j: int, i: int, cur: seq<T>)
    requires |E| == |F| && PassAt(E, F, j, i, cur) && i < |cur|
    ensures j < |E| && cur[i] == E[j]
  {
    assert InPlace(E, F, j, cur, i);
  }

  lemma PrefixWhole<T>(s: seq<T>, n: int)
    requires n == |s|
    ensures s[..n] == s
  {
  }

  /** A list that starts with one that starts with `a` starts with `a`. */
  lemma PrefixTrans<T>(a: seq<T>, b: seq<T>, c: seq<T>)
    requires |a| <= |b| <= |c| && b[..|a|] == a && c[..|b|] == b
    ensures c[..|a|] == a
  {
    assert c[..|a|] == c[..|b|][..|a|];
  }

  lemma AppendAssoc<T>(a: seq<T>, b: seq<T>, c: seq<T>)
    ensures a + (b + c) == (a + b) + c
  {
  }

  /** Taking one more entry into the survivors' prefix. */
  lemma SurvivorsExtend<T>(s: seq<T>, fates: seq<Fate>, j: int)
    requires |s| == |fates| && 0 <= j < |s|
    ensures Survivors(s[..j + 1], fates[..j + 1]) == Survivors(s[..j], fates[..j]) + (if fates[j] == Killed then [] else [s[j]])
  {
    assert s[..j + 1][..j] == s[..j];
    assert fates[..j + 1][..j] == fates[..j];
  }

  /** A killed entry leaves the list, and the entry after it is passed over
    * but stays. */
  lemma PassAdvanceKilled<T>(E: seq<T>, F: seq<Fate>, j: int, i: int, cur: seq<T>)
    requires |E| == |F| && PassAt(E, F, j, i, cur) && i < |cur| && j < |E| && F[j] == Killed
    requires forall k :: j < k < NextJ(F, j) ==> F[k] == Skipped
    requires NextJ(F, j) < |F| ==> F[NextJ(F, j)] != Skipped
    ensures PassAt(E, F, NextJ(F, j), i + 1, RemoveAt(cur, i))
  {
    PassAtList(E, F, j, i, cur);
    var S := Survivors(E[..j], F[..j]);
    SurvivorsExtend(E, F, j);
    assert cur[..i] == S && cur[i + 1..] == E[j + 1..];
    assert RemoveAt(cur, i) == S + E[j + 1..];
    if j + 1 < |E| {
      SurvivorsExtend(E, F, j + 1);
      assert E[j + 1..] == [E[j + 1]] + E[j + 2..];
    }
    PassAtList(E, F, NextJ(F, j), i + 1, RemoveAt(cur, i));
  }

  /** Any other entry stays where it is. */
  lemma PassAdvanceKept<T>(E: seq<T>, F: seq<Fate>, j: int, i: int, cur: seq<T>)
    requires |E| == |F| && PassAt(E, F, j, i, cur) && i < |cur| && j < |E| && F[j] != Killed
    requires NextJ(F, j) < |F| ==> F[NextJ(F, j)] != Skipped
    ensures PassAt(E, F, NextJ(F, j), i + 1, cur)
  {
    PassAtList(E, F, j, i, cur);
    SurvivorsExtend(E, F, j);
    assert E[j..] == [E[j]] + E[j + 1..];
    PassAtList(E, F, NextJ(F, j), i + 1, cur);
  }

  /** The orbs and kills of the entries visited in one step. */
  lemma PassTallies(P: seq<Vec3>, F: seq<Fate>, j: int)
    requires |P| == |F| && 0 <= j < |F| && F[j] != Skipped
    requires forall k :: j < k < NextJ(F, j) ==> F[k] == Skipped
    ensures Drops(P[..NextJ(F, j)], F[..NextJ(F, j)]) == Drops(P[..j], F[..j]) + (if F[j] == Killed then [Drop(P[j])] else [])
    ensures Kills(F[..NextJ(F, j)]) == Kills(F[..j]) + (if F[j] == Killed then 1 else 0)
  {
    ExtendPrefix(P, P, F, j);
    if NextJ(F, j) == j + 2 {
      ExtendPrefix(P, P, F, j + 1);
    }
  }

  // ---------------------------------------------------------------------------
  // XP orbs.

  datatype Orb = Orb(position: Vec3, value: int)

  const OrbHeight := 0.5
  const PickupDistance := 1.0
  const MagnetSpeed := 10.0

  /** The orb an enemy drops: floating at half a unit, worth 10 XP. */
  function Drop(at: Vec3): (o: Orb)
    ensures o.position.x == at.x && o.position.z == at.z && o.position.y == OrbHeight
    ensures o.value == Progression.OrbValue
  {
    Orb(at.(y := OrbHeight), Progression.OrbValue)
  }

  /** An orb is picked up when it was closer than one unit before this
    * frame's magnet move. */
  predicate Collected(o: Orb, playerPos: Vec3, ops: Ops) {
    Distance(o.position, playerPos, ops) < PickupDistance
  }

  /** An orb inside the pickup range flies towards the player at 10 units
    * per second. */
  function Attract(o: Orb, playerPos: Vec3, range: real, dt: real, ops: Ops): (a: Orb)
    ensures a.value == o.value
    ensures Distance(o.position, playerPos, ops) >= range ==> a == o
  {
    if Distance(o.position, playerPos, ops) < range then
      o.(position := Add(o.position, Scale(Normalize(Sub(playerPos, o.position), ops), MagnetSpeed * dt)))
    else o
  }

  /** An attracted orb keeps its value and moves exactly `10 * dt` straight
    * at the player; one out of range does not move. */
  lemma AttractFacts(o: Orb, playerPos: Vec3, range: real, dt: real, ops: Ops)
    requires ValidOps(ops)
    ensures var a := Attract(o, playerPos, range, dt, ops);
      && a.value == o.value
      && (Distance(o.position, playerPos, ops) >= range ==> a == o)
      && (Distance(o.position, playerPos, ops) < range && o.position != playerPos ==>
            DistSq(a.position, o.position) == (MagnetSpeed * dt) * (MagnetSpeed * dt))
  {
    if Distance(o.position, playerPos, ops) < range && o.position != playerPos {
      var dir := Sub(playerPos, o.position);
      assert dir != Zero;
      NormalizeFacts(dir, ops);
      StepLength(o.position, Normalize(dir, ops), MagnetSpeed * dt);
    }
  }

  /** A step of `k` along a unit vector covers a distance of `k`. */
  lemma StepLength(p: Vec3, u: Vec3, k: real)
    requires IsUnit(u)
    ensures DistSq(Add(p, Scale(u, k)), p) == k * k
  {
    assert Sub(Add(p, Scale(u, k)), p) == Scale(u, k);
    LengthSqScale(u, k);
  }

  /** `XPOrb.update`: the orb floats at `0.5 + 0.1 * bobSine`, where
    * `bobSine` is the sine of the wall clock the animation reads. */
  function Bob(o: Orb, bobSine: real): (b: Orb)
    ensures b.value == o.value && b.position.x == o.position.x && b.position.z == o.position.z
    ensures -1.0 <= bobSine <= 1.0 ==> 0.4 <= b.position.y <= 0.6
  {
    o.(position := o.position.(y := OrbHeight + bobSine * 0.1))
  }

  /** What one orb does to the list: a collected orb leaves it, any other
    * is pulled by the magnet and bobs. */
  function Moved(o: Orb, playerPos: Vec3, range: real, dt: real, bobSine: real, ops: Ops): (r: seq<Orb>)
    ensures |r| == (if Collected(o, playerPos, ops) then 0 else 1)
    ensures forall k :: 0 <= k < |r| ==> r[k].value == o.value
  {
    if Collected(o, playerPos, ops) then [] else [Bob(Attract(o, playerPos, range, dt, ops), bobSine)]
  }

  /** The orbs left after a sweep: the ones not collected, moved by the
    * magnet, in their order. */
  function Remaining(orbs: seq<Orb>, playerPos: Vec3, range: real, dt: real, bobSine: real, ops: Ops): (r: seq<Orb>)
    ensures |r| <= |orbs|
  {
    if orbs == [] then []
    else Moved(orbs[0], playerPos, range, dt, bobSine, ops) + Remaining(orbs[1..], playerPos, range, dt, bobSine, ops)
  }

  /** One orb's effect on the XP state: a collected orb's value is gained. */
  function CollectOne(s: Progression.Xp, o: Orb, playerPos: Vec3, ops: Ops): (r: Progression.Xp)
    ensures !Collected(o, playerPos, ops) ==> r == s
    ensures s.level <= r.level <= s.level + 1
  {
    if Collected(o, playerPos, ops) then Progression.Gain(s, o.value) else s
  }

  /** The XP state after the orbs are collected, the last orb first. */
  function CollectAll(s: Progression.Xp, orbs: seq<Orb>, playerPos: Vec3, ops: Ops): (r: Progression.Xp)
    ensures s.level <= r.level <= s.level + |orbs|
    decreases |orbs|
  {
    if orbs == [] then s
    else
      var last := orbs[|orbs| - 1];
      CollectAll(CollectOne(s, last, playerPos, ops), orbs[..|orbs| - 1], playerPos, ops)
  }

  /** Whether any collection on the way reaches a level-up. */
  function LevelledDuring(s: Progression.Xp, orbs: seq<Orb>, playerPos: Vec3, ops: Ops): bool
    decreases |orbs|
  {
    if orbs == [] then false
    else
      var last := orbs[|orbs| - 1];
      var up := Collected(last, playerPos, ops) && Progression.LevelsUp(s, last.value);
      up || LevelledDuring(CollectOne(s, last, playerPos, ops), orbs[..|orbs| - 1], playerPos, ops)
  }

  /** The orb at the front of the list is the last one collected: the sweep
    * over `[o] + rest` is the sweep over `rest` followed by `o`, and it
    * levels up when that sweep does or when `o` does. */
  lemma {:induction false} CollectFront(s: Progression.Xp, o: Orb, rest: seq<Orb>, playerPos: Vec3, ops: Ops)
    ensures CollectAll(s, [o] + rest, playerPos, ops) == CollectOne(CollectAll(s, rest, playerPos, ops), o, playerPos, ops)
    ensures LevelledDuring(s, [o] + rest, playerPos, ops)
      == (LevelledDuring(s, rest, playerPos, ops)
          || (Collected(o, playerPos, ops) && Progression.LevelsUp(CollectAll(s, rest, playerPos, ops), o.value)))
    decreases |rest|
  {
    if rest != [] {
      var n := |rest| - 1;
      var last := rest[n];
      assert ([o] + rest)[..n + 1] == [o] + rest[..n];
      CollectFront(CollectOne(s, last, playerPos, ops), o, rest[..n], playerPos, ops);
    }
  }

  function CollectedCount(orbs: seq<Orb>, playerPos: Vec3, ops: Ops): (n: nat)
    ensures n <= |orbs|
  {
    if orbs == [] then 0
    else CollectedCount(orbs[1..], playerPos, ops) + (if Collected(orbs[0], playerPos, ops) then 1 else 0)
  }

  /** Collected orbs leave the list and the others stay, so the list
    * shrinks by the number collected, and 10-XP orbs stay 10-XP orbs. */
  lemma {:induction false} RemainingFacts(orbs: seq<Orb>, playerPos: Vec3, range: real, dt: real, bobSine: real, ops: Ops)
    ensures |Remaining(orbs, playerPos, range, dt, bobSine, ops)| == |orbs| - CollectedCount(orbs, playerPos, ops)
    ensures (forall k :: 0 <= k < |orbs| ==> orbs[k].value == Progression.OrbValue) ==>
      forall k :: 0 <= k < |Remaining(orbs, playerPos, range, dt, bobSine, ops)| ==>
        Remaining(orbs, playerPos, range, dt, bobSine, ops)[k].value == Progression.OrbValue
  {
    if orbs != [] {
      RemainingFacts(orbs[1..], playerPos, range, dt, bobSine, ops);
    }
  }

  /** Collecting 10-XP orbs is collecting that many orbs one after another:
    * the order does not matter, and no XP is lost. */
  lemma {:induction false} CollectAllCounts(s: Progression.Xp, orbs: seq<Orb>, playerPos: Vec3, ops: Ops)
    requires Progression.Reachable(s)
    requires forall k :: 0 <= k < |orbs| ==> orbs[k].value == Progression.OrbValue
    ensures CollectAll(s, orbs, playerPos, ops) == Progression.GainMany(s, CollectedCountBack(orbs, playerPos, ops))
    ensures Progression.Reachable(CollectAll(s, orbs, playerPos, ops))
    ensures Progression.TotalXp(CollectAll(s, orbs, playerPos, ops))
      == Progression.TotalXp(s) + Progression.OrbValue * CollectedCount(orbs, playerPos, ops)
  {
    CountBackIsCount(orbs, playerPos, ops);
    CollectAllGains(s, orbs, playerPos, ops, 0);
    Progression.GainManyConserves(s, CollectedCount(orbs, playerPos, ops));
  }

  /** The number collected, counted from the back. */
  function CollectedCountBack(orbs: seq<Orb>, playerPos: Vec3, ops: Ops): nat {
    if orbs == [] then 0
    else CollectedCountBack(orbs[..|orbs| - 1], playerPos, ops) + (if Collected(orbs[|orbs| - 1], playerPos, ops) then 1 else 0)
  }

  lemma {:induction false} CountBackIsCount(orbs: seq<Orb>, playerPos: Vec3, ops: Ops)
    ensures CollectedCountBack(orbs, playerPos, ops) == CollectedCount(orbs, playerPos, ops)
    decreases |orbs|
  {
    if orbs != [] {
      var n := |orbs| - 1;
      CountBackIsCount(orbs[..n], playerPos, ops);
      if n > 0 {
        CountBackIsCount(orbs[1..], playerPos, ops);
        CountBackIsCount(orbs[1..][..n - 1], playerPos, ops);
        assert orbs[..n][1..] == orbs[1..][..n - 1];
        assert orbs[..n][0] == orbs[0];
      }
    }
  }

  lemma {:induction false} CollectAllGains(s: Progression.Xp, orbs: seq<Orb>, playerPos: Vec3, ops: Ops, done: nat)
    requires forall k :: 0 <= k < |orbs| ==> orbs[k].value == Progression.OrbValue
    ensures CollectAll(Progression.GainMany(s, done), orbs, playerPos, ops)
      == Progression.GainMany(s, done + CollectedCountBack(orbs, playerPos, ops))
  {
    if orbs != [] {
      var n := |orbs| - 1;
      var step := if Collected(orbs[n], playerPos, ops) then 1 else 0;
      assert CollectOne(Progression.GainMany(s, done), orbs[n], playerPos, ops) == Progression.GainMany(s, done + step);
      CollectAllGains(s, orbs[..n], playerPos, ops, done + step);
    }
  }

  // ---------------------------------------------------------------------------
  // Enemies moving one after another.

  /** The pushes on the enemy at index `k` standing at `pos`, from the
    * first `|ps|` enemies, given their positions and dead flags. */
  function AccumulateAt(k: int, pos: Vec3, ps: seq<Vec3>, dead: seq<bool>, ops: Ops): (r: Enemies.Separation)
    requires |dead| == |ps|
    ensures r.count <= |ps|
  {
    if ps == [] then Enemies.Separation(Zero, 0)
    else
      var n := |ps| - 1;
      var acc := AccumulateAt(k, pos, ps[..n], dead[..n], ops);
      if n != k && !dead[n] && Distance(pos, ps[n], ops) < Enemies.SeparationDistance then
        Enemies.Separation(Add(acc.sum, Enemies.Push(Sub(pos, ps[n]), ops)), acc.count + 1)
      else acc
  }

  /** Every enemy in turn, from index `k` on, moves the way `Enemy.update`
    * moves it, seeing the positions the enemies before it already took. */
  function MoveFrom(ps: seq<Vec3>, dead: seq<bool>, speeds: seq<real>, playerPos: Vec3, dt: real, ops: Ops, k: nat): (r: seq<Vec3>)
    requires |dead| == |ps| == |speeds| && k <= |ps|
    ensures |r| == |ps|
    decreases |ps| - k
  {
    if k == |ps| then ps
    else
      var sep := Enemies.Resolve(AccumulateAt(k, ps[k], ps, dead, ops));
      MoveFrom(ps[k := Enemies.Chase(ps[k], playerPos, sep, speeds[k], dt, ops)], dead, speeds, playerPos, dt, ops, k + 1)
  }

  /** `b` is `a`, or exactly `step` away from it. */
  predicate StaysOrSteps(a: Vec3, b: Vec3, step: real) {
    b == a || DistSq(b, a) == step * step
  }

  /** Each enemy either stays where it is or moves exactly `speed * dt`, and
    * one within a unit of the player on the ground does not move. */
  lemma MoveFromFacts(ps: seq<Vec3>, dead: seq<bool>, speeds: seq<real>, playerPos: Vec3, dt: real, ops: Ops, k: nat, i: int)
    requires ValidOps(ops)
    requires |dead| == |ps| == |speeds| && k <= |ps| && 0 <= i < |ps|
    ensures var r := MoveFrom(ps, dead, speeds, playerPos, dt, ops, k);
      && (i < k ==> r[i] == ps[i])
      && StaysOrSteps(ps[i], r[i], speeds[i] * dt)
      && (ops.length(Flatten(Sub(playerPos, ps[i]))) <= 1.0 ==> r[i] == ps[i])
  {
    var r := MoveFrom(ps, dead, speeds, playerPos, dt, ops, k);
    MoveFromChases(ps, dead, speeds, playerPos, dt, ops, k, i);
    if k <= i {
      var sep :| r[i] == Enemies.Chase(ps[i], playerPos, sep, speeds[i], dt, ops);
      ChaseStep(ps[i], playerPos, sep, speeds[i], dt, ops, r[i]);
    }
  }

  /** The enemies before index `k` keep their positions; every other one
    * takes one chase step from where it stood, whatever the separation the
    * enemies before it produced. */
  lemma {:induction false} MoveFromChases(ps: seq<Vec3>, dead: seq<bool>, speeds: seq<real>, playerPos: Vec3, dt: real, ops: Ops, k: nat, i: int)
    requires |dead| == |ps| == |speeds| && k <= |ps| && 0 <= i < |ps|
    ensures var r := MoveFrom(ps, dead, speeds, playerPos, dt, ops, k);
      && (i < k ==> r[i] == ps[i])
      && (k <= i ==> exists sep :: r[i] == Enemies.Chase(ps[i], playerPos, sep, speeds[i], dt, ops))
    decreases |ps| - k
  {
    if k < |ps| {
      var sep := Enemies.Resolve(AccumulateAt(k, ps[k], ps, dead, ops));
      var moved := Enemies.Chase(ps[k], playerPos, sep, speeds[k], dt, ops);
      var ps' := ps[k := moved];
      MoveFromUnfold(ps, dead, speeds, playerPos, dt, ops, k);
      MoveFromChases(ps', dead, speeds, playerPos, dt, ops, k + 1, i);
      var r := MoveFrom(ps', dead, speeds, playerPos, dt, ops, k + 1);
      if i == k {
        assert r[i] == moved;
      } else {
        assert ps'[i] == ps[i];
      }
    }
  }

  lemma MoveFromUnfold(ps: seq<Vec3>, dead: seq<bool>, speeds: seq<real>, playerPos: Vec3, dt: real, ops: Ops, k: nat)
    requires |dead| == |ps| == |speeds| && k < |ps|
    ensures var sep := Enemies.Resolve(AccumulateAt(k, ps[k], ps, dead, ops));
      MoveFrom(ps, dead, speeds, playerPos, dt, ops, k)
        == MoveFrom(ps[k := Enemies.Chase(ps[k], playerPos, sep, speeds[k], dt, ops)], dead, speeds, playerPos, dt, ops, k + 1)
  {
  }

  lemma ChaseStep(pos: Vec3, playerPos: Vec3, sep: Vec3, speed: real, dt: real, ops: Ops, moved: Vec3)
    requires ValidOps(ops)
    requires moved == Enemies.Chase(pos, playerPos, sep, speed, dt, ops)
    ensures StaysOrSteps(pos, moved, speed * dt)
    ensures ops.length(Flatten(Sub(playerPos, pos))) <= 1.0 ==> moved == pos
  {
    Enemies.ChaseFacts(pos, playerPos, sep, speed, dt, ops);
  }

  /** With the enemies' own positions and flags, `AccumulateAt` is the
    * accumulation `Enemy.update` does over the list of enemies. */
  lemma {:induction false} AccumulateAtMatches(self: Enemies.Enemy, k: int, pos: Vec3, others: seq<Enemies.Enemy>,
                                               ps: seq<Vec3>, dead: seq<bool>, ops: Ops)
    requires |ps| == |dead| == |others|
    requires forall j :: 0 <= j < |others| ==> (others[j] == self <==> j == k)
    requires forall j :: 0 <= j < |others| ==> ps[j] == others[j].position && dead[j] == others[j].isDead
    ensures Enemies.Accumulate(self, pos, others, ops) == AccumulateAt(k, pos, ps, dead, ops)
  {
    if others != [] {
      var n := |others| - 1;
      AccumulateAtMatches(self, k, pos, others[..n], ps[..n], dead[..n], ops);
    }
  }

  // ---------------------------------------------------------------------------
  // Contact damage.

  const ContactDistance := 1.5
  const ContactDamagePerSecond := 10.0

  /** The live enemies within contact distance of the player. */
  function Touching(playerPos: Vec3, ps: seq<Vec3>, dead: seq<bool>, ops: Ops): (n: nat)
    requires |ps| == |dead|
    ensures n <= |ps|
  {
    if ps == [] then 0
    else
      var k := |ps| - 1;
      Touching(playerPos, ps[..k], dead[..k], ops)
        + (if !dead[k] && Distance(playerPos, ps[k], ops) < ContactDistance then 1 else 0)
  }

  /** What `n` contacts of `hurt` each take off, subtracted one at a time. */
  function Repeated(n: nat, hurt: real): (total: real)
    ensures n == 0 ==> total == 0.0
    ensures hurt >= 0.0 ==> total >= 0.0
  {
    if n == 0 then 0.0 else Repeated(n - 1, hurt) + hurt
  }

  lemma {:induction false} RepeatedIsProduct(n: nat, hurt: real)
    ensures Repeated(n, hurt) == n as real * hurt
  {
    if n > 0 {
      RepeatedIsProduct(n - 1, hurt);
    }
  }

  /** `Touching` counts exactly the live enemies within contact distance. */
  lemma {:induction false} TouchingCounts(playerPos: Vec3, ps: seq<Vec3>, dead: seq<bool>, ops: Ops)
    requires |ps| == |dead|
    ensures Touching(playerPos, ps, dead, ops)
      == |set k | 0 <= k < |ps| && !dead[k] && Distance(playerPos, ps[k], ops) < ContactDistance|
  {
    if ps != [] {
      var n := |ps| - 1;
      TouchingCounts(playerPos, ps[..n], dead[..n], ops);
      var before := set k | 0 <= k < n && !dead[..n][k] && Distance(playerPos, ps[..n][k], ops) < ContactDistance;
      var after := set k | 0 <= k < |ps| && !dead[k] && Distance(playerPos, ps[k], ops) < ContactDistance;
      forall k | 0 <= k < n
        ensures k in after <==> k in before
      {
        assert ps[..n][k] == ps[k] && dead[..n][k] == dead[k];
      }
      if !dead[n] && Distance(playerPos, ps[n], ops) < ContactDistance {
        assert after == before + {n};
      } else {
        assert after == before;
      }
    }
  }
}
