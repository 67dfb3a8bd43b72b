/** permute_args of src/getopt.c: two adjacent blocks of argv change places by following
    gcd-many cycles, one swap at a time, with no scratch array. */
module Permute {
  import opened Cycles

  // src/getopt.c:142-155
  method EuclidGcd(x: nat, y: nat) returns (g: nat)
    requires y >= 1
    ensures g == Gcd(x, y)
  {
    var a, b := x, y;
    var c := a % b;
    while c != 0
      invariant b >= 1 && c == a % b && Gcd(a, b) == Gcd(x, y)
      decreases c
    {
      a := b;
      b := c;
      c := a % b;
    }
    g := b;
  }

  /** Blocks [start, mid) and [mid, end) exchanged, each in its own order. */
  function BlockSwap<T>(s: seq<T>, start: nat, mid: nat, end: nat): (r: seq<T>)
    requires start <= mid <= end <= |s|
    ensures |r| == |s|
  {
    s[..start] + s[mid..end] + s[start..mid] + s[end..]
  }

  // Offset q of the window lies in one of the residue classes 0..i modulo g.
  predicate InClasses(q: nat, g: nat, i: nat)
    requires g >= 1
  {
    q % g < i
  }

  // The window of a + b words at offset start once residue classes 0..i are rotated.
  ghost predicate ClassesRotated<T>(was: seq<T>, now: seq<T>, start: nat, a: nat, b: nat, g: nat, i: nat)
    requires start + a + b <= |was| == |now| && g >= 1
  {
    && (forall q {:trigger now[q]} :: 0 <= q < start || start + a + b <= q < |was| ==> now[q] == was[q])
    && (forall q: nat {:trigger InClasses(q, g, i)} :: q < a + b ==>
          now[start + q] == was[start + if InClasses(q, g, i) then Source(a, b, q) else q])
  }

  lemma NoneRotated<T>(s: seq<T>, start: nat, a: nat, b: nat, g: nat)
    requires start + a + b <= |s| && g >= 1
    ensures ClassesRotated(s, s, start, a, b, g, 0)
  {
  }

  lemma AllRotated<T>(was: seq<T>, now: seq<T>, start: nat, a: nat, b: nat, g: nat)
    requires start + a + b <= |was| == |now| && g >= 1
    requires ClassesRotated(was, now, start, a, b, g, g)
    ensures now == BlockSwap(was, start, start + a, start + a + b)
  {
    var r := BlockSwap(was, start, start + a, start + a + b);
    forall q | 0 <= q < |was| ensures now[q] == r[q] {
      if start <= q < start + a + b {
        assert InClasses(q - start, g, g);
      }
    }
  }

  // The slots of one cycle, ending where it began.
  ghost predicate IsCycle(o: seq<nat>, size: nat) {
    && |o| >= 2 && o[0] == o[|o| - 1]
    && (forall k :: 0 <= k < |o| ==> o[k] < size)
    && (forall j, k :: 0 <= j < k < |o| - 1 ==> o[j] != o[k])
  }

  // Halfway round a cycle: was is the array when the cycle began, now the array after j swaps.
  ghost predicate CyclePartly<T>(was: seq<T>, now: seq<T>, o: seq<nat>, j: nat)
    requires IsCycle(o, |was|) && |was| == |now| && j < |o|
  {
    && (forall k :: 0 <= k < j ==> now[o[k + 1]] == was[o[k]])
    && (j < |o| - 1 ==> now[o[0]] == was[o[j]])
    && (forall k :: j < k < |o| - 1 ==> now[o[k]] == was[o[k]])
    && (forall q :: 0 <= q < |was| && q !in o ==> now[q] == was[q])
  }

  lemma CycleStep<T>(was: seq<T>, now: seq<T>, next: seq<T>, o: seq<nat>, j: nat)
    requires IsCycle(o, |was|) && |was| == |now| && j < |o| - 1
    requires CyclePartly(was, now, o, j)
    requires next == now[o[j + 1] := now[o[0]]][o[0] := now[o[j + 1]]]
    ensures CyclePartly(was, next, o, j + 1)
  {
    forall k | 0 <= k < j + 1 ensures next[o[k + 1]] == was[o[k]] {
      if k < j {
        assert o[k + 1] != o[0];
        assert now[o[k + 1]] == was[o[k]];
      }
    }
    forall q | 0 <= q < |was| && q !in o ensures next[q] == was[q] {
      assert o[0] in o && o[j + 1] in o;
    }
  }

  // The cycle that starts at slot c of the window, as array indices.
  ghost function Slots(start: nat, a: nat, b: nat, c: nat, len: nat): (o: seq<nat>)
    requires c < a + b
  {
    seq(len + 1, (k: nat) => start + Orbit(a, b, c, k))
  }

  lemma SlotsAreCycle(start: nat, a: nat, b: nat, g: nat, len: nat, c: nat, size: nat)
    requires Shape(a, b, g, len) && c < a + b && start + a + b <= size
    ensures IsCycle(Slots(start, a, b, c, len), size)
  {
    OrbitCloses(a, b, g, len, c);
    forall j, k | 0 <= j < k < len ensures Orbit(a, b, c, j) != Orbit(a, b, c, k) {
      OrbitInjective(a, b, g, len, c, j, k);
    }
  }

  // Cycle i holds every slot of residue class i, each the target of the slot before it ...
  lemma ClassInSlots(start: nat, a: nat, b: nat, g: nat, len: nat, i: nat, q: nat) returns (k: nat)
    requires Shape(a, b, g, len) && i < g && q < a + b && q % g == i
    ensures i < b && k < len
    ensures Orbit(a, b, a + i, k + 1) == q && Orbit(a, b, a + i, k) == Source(a, b, q)
  {
    k := ClassIsOrbit(a, b, g, len, i, q);
    OrbitCloses(a, b, g, len, a + i);
    k := if k == 0 then len - 1 else k - 1;
  }

  // ... and no slot of another class.
  lemma SlotsInClass(start: nat, a: nat, b: nat, g: nat, len: nat, i: nat, o: seq<nat>)
    requires Shape(a, b, g, len) && i < g && i < b && o == Slots(start, a, b, a + i, len)
    ensures forall k :: 0 <= k < |o| ==> start <= o[k] < start + a + b && (o[k] - start) % g == i
  {
    StartResidue(a, b, g, len, i);
    forall k | 0 <= k < |o| ensures start <= o[k] < start + a + b && (o[k] - start) % g == i {
      OrbitResidue(a, b, g, len, a + i, k);
    }
  }

  lemma ClassStep(q: nat, g: nat, i: nat)
    requires g >= 1
    ensures InClasses(q, g, i + 1) <==> InClasses(q, g, i) || q % g == i
    ensures !(InClasses(q, g, i) && q % g == i)
  {
  }

  lemma CycleDone<T>(orig: seq<T>, was: seq<T>, now: seq<T>, start: nat, a: nat, b: nat, g: nat, len: nat, i: nat)
    requires Shape(a, b, g, len) && start + a + b <= |was| == |now| == |orig| && i < g && i < b
    requires ClassesRotated(orig, was, start, a, b, g, i)
    requires var o := Slots(start, a, b, a + i, len);
      IsCycle(o, |was|) && CyclePartly(was, now, o, len)
    ensures ClassesRotated(orig, now, start, a, b, g, i + 1)
  {
    var o := Slots(start, a, b, a + i, len);
    SlotsInClass(start, a, b, g, len, i, o);
    forall q: nat {:trigger InClasses(q, g, i + 1)} | q < a + b
      ensures now[start + q] == orig[start + if InClasses(q, g, i + 1) then Source(a, b, q) else q]
    {
      SlotDone(orig, was, now, start, a, b, g, len, i, o, q);
    }
    OutsideUntouched(orig, was, now, start, start + a + b, o, len);
  }

  lemma OutsideUntouched<T>(orig: seq<T>, was: seq<T>, now: seq<T>, lo: nat, hi: nat, o: seq<nat>, j: nat)
    requires |was| == |now| == |orig| && IsCycle(o, |was|) && j < |o| && CyclePartly(was, now, o, j)
    requires forall k :: 0 <= k < |o| ==> lo <= o[k] < hi
    requires forall q {:trigger was[q]} :: 0 <= q < lo || hi <= q < |was| ==> was[q] == orig[q]
    ensures forall q {:trigger now[q]} :: 0 <= q < lo || hi <= q < |was| ==> now[q] == orig[q]
  {
    forall q | 0 <= q < lo || hi <= q < |was| ensures now[q] == orig[q] {
      assert q !in o;
      assert was[q] == orig[q];
    }
  }

  lemma SlotDone<T>(orig: seq<T>, was: seq<T>, now: seq<T>, start: nat, a: nat, b: nat, g: nat, len: nat, i: nat,
                    o: seq<nat>, q: nat)
    requires Shape(a, b, g, len) && start + a + b <= |was| == |now| == |orig| && i < g && i < b && q < a + b
    requires ClassesRotated(orig, was, start, a, b, g, i)
    requires o == Slots(start, a, b, a + i, len) && IsCycle(o, |was|) && CyclePartly(was, now, o, len)
    requires forall k :: 0 <= k < |o| ==> o[k] >= start && (o[k] - start) % g == i
    ensures now[start + q] == orig[start + if InClasses(q, g, i + 1) then Source(a, b, q) else q]
  {
    ClassStep(q, g, i);
    if q % g == i {
      var k := ClassInSlots(start, a, b, g, len, i, q);
      var s := Source(a, b, q);
      assert o[k + 1] == start + q && o[k] == start + s;
      assert now[start + q] == was[start + s];
      assert s % g == i;
      ClassStep(s, g, i);
      assert was[start + s] == orig[start + s];
    } else {
      if start + q in o {
        assert false;
      }
      assert now[start + q] == was[start + q];
    }
  }

  // One step of the cycle after another.
  lemma SlotsFollow(start: nat, a: nat, b: nat, c: nat, len: nat)
    requires c < a + b
    ensures var o := Slots(start, a, b, c, len);
      && |o| == len + 1 && o[0] == start + c
      && forall k {:trigger o[k]} :: 0 <= k < len ==> o[k + 1] == if o[k] >= start + a then o[k] - a else o[k] + b
  {
  }

  // Cycle i: where it starts, and how it goes on.
  lemma CycleOf(start: nat, a: nat, b: nat, g: nat, len: nat, i: nat, size: nat)
    requires Shape(a, b, g, len) && i < g && start + a + b <= size
    ensures i < b
    ensures var o := Slots(start, a, b, a + i, len);
      && IsCycle(o, size) && |o| == len + 1 && o[0] == start + a + i
      && forall k {:trigger o[k]} :: 0 <= k < len ==> o[k + 1] == if o[k] >= start + a then o[k] - a else o[k] + b
  {
    hide Slots, Shape, IsCycle, Orbit;
    StartResidue(a, b, g, len, i);
    SlotsAreCycle(start, a, b, g, len, a + i, size);
    SlotsFollow(start, a, b, a + i, len);
  }

  // src/getopt.c:162-192
  method PermuteArgs<T>(nonoptStart: nat, nonoptEnd: nat, optEnd: nat, nargv: array<T>)
    requires nonoptStart <= nonoptEnd < optEnd <= nargv.Length
    modifies nargv
    ensures nargv[..] == BlockSwap(old(nargv[..]), nonoptStart, nonoptEnd, optEnd)
  {
    hide Gcd, Shape, ClassesRotated, BlockSwap;
    var nnonopts, nopts := nonoptEnd - nonoptStart, optEnd - nonoptEnd;
    var ncycle := EuclidGcd(nnonopts, nopts);
    ghost var len := ShapeOf(nnonopts, nopts);
    var cyclelen := (optEnd - nonoptStart) / ncycle;
    ghost var orig := nargv[..];
    NoneRotated(orig, nonoptStart, nnonopts, nopts, ncycle);
    var i := 0;
    while i < ncycle
      invariant i <= ncycle
      invariant ClassesRotated(orig, nargv[..], nonoptStart, nnonopts, nopts, ncycle, i)
    {
      RotateClass(nonoptStart, nonoptEnd, nnonopts, nopts, cyclelen, i, nargv, orig, ncycle);
      i := i + 1;
    }
    AllRotated(orig, nargv[..], nonoptStart, nnonopts, nopts, ncycle);
  }

  // Cycle i (src/getopt.c:177-190) rotates residue class i.
  method RotateClass<T>(nonoptStart: nat, nonoptEnd: nat, nnonopts: nat, nopts: nat, cyclelen: nat, i: nat,
                        nargv: array<T>, ghost orig: seq<T>, ghost g: nat)
    requires Shape(nnonopts, nopts, g, cyclelen) && nonoptStart + nnonopts == nonoptEnd && i < g
    requires nonoptEnd + nopts <= nargv.Length == |orig|
    requires ClassesRotated(orig, nargv[..], nonoptStart, nnonopts, nopts, g, i)
    modifies nargv
    ensures ClassesRotated(orig, nargv[..], nonoptStart, nnonopts, nopts, g, i + 1)
  {
    hide Slots, Shape, ClassesRotated, IsCycle, CyclePartly, BlockSwap, Orbit;
    CycleOf(nonoptStart, nnonopts, nopts, g, cyclelen, i, nargv.Length);
    var cstart := nonoptEnd + i;
    ghost var was := nargv[..];
    ghost var o := Slots(nonoptStart, nnonopts, nopts, nnonopts + i, cyclelen);
    RunCycle(nonoptEnd, nnonopts, nopts, cstart, cyclelen, nargv, o);
    CycleDone(orig, was, nargv[..], nonoptStart, nnonopts, nopts, g, cyclelen, i);
  }

  // The inner loop, src/getopt.c:179-190; o lists the slots it goes through.
  method RunCycle<T>(nonoptEnd: nat, nnonopts: nat, nopts: nat, cstart: nat, cyclelen: nat,
                     nargv: array<T>, ghost o: seq<nat>)
    requires IsCycle(o, nargv.Length) && |o| == cyclelen + 1 && o[0] == cstart
    requires forall k {:trigger o[k]} :: 0 <= k < cyclelen ==>
      o[k + 1] == if o[k] >= nonoptEnd then o[k] - nnonopts else o[k] + nopts
    modifies nargv
    ensures CyclePartly(old(nargv[..]), nargv[..], o, cyclelen)
  {
    var pos := cstart;
    var j := 0;
    while j < cyclelen
      invariant j <= cyclelen && pos == o[j]
      invariant CyclePartly(old(nargv[..]), nargv[..], o, j)
    {
      ghost var now := nargv[..];
      if pos >= nonoptEnd {
        pos := pos - nnonopts;
      } else {
        pos := pos + nopts;
      }
      assert pos == o[j + 1] && cstart == o[0];
      var swap := nargv[pos];
      nargv[pos] := nargv[cstart];
      nargv[cstart] := swap;
      assert nargv[..] == now[o[j + 1] := now[o[0]]][o[0] := now[o[j + 1]]];
      CycleStep(old(nargv[..]), now, nargv[..], o, j);
      j := j + 1;
    }
  }
}
