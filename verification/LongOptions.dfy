/** Abbreviated long-option names: the table search of parse_long_options in src/getopt.c. */
module LongOptions {
  import opened CBase

  const NO_ARGUMENT := 0
  const REQUIRED_ARGUMENT := 1
  const OPTIONAL_ARGUMENT := 2

  /** struct option of include/getopt.h; flag is the address the value is stored at, if any. */
  datatype LongOption = LongOption(name: string, hasArg: int, flag: Option<nat>, val: int)

  datatype Resolution = Unknown | Ambiguous | Match(index: nat)

  predicate Identical(x: LongOption, y: LongOption) {
    x.hasArg == y.hasArg && x.flag == y.flag && x.val == y.val
  }

  // Entry o may be abbreviated by name; with shortToo one character never abbreviates.
  predicate Abbreviates(name: string, o: LongOption, shortToo: bool) {
    name <= o.name && name != o.name && !(shortToo && |name| == 1)
  }

  ghost predicate HasExact(longs: seq<LongOption>, name: string) {
    exists i :: 0 <= i < |longs| && longs[i].name == name
  }

  ghost predicate HasPartial(longs: seq<LongOption>, name: string, shortToo: bool) {
    exists i :: 0 <= i < |longs| && Abbreviates(name, longs[i], shortToo)
  }

  ghost predicate PartialsAgree(longs: seq<LongOption>, name: string, shortToo: bool) {
    forall i, j :: 0 <= i < j < |longs| && Abbreviates(name, longs[i], shortToo) && Abbreviates(name, longs[j], shortToo)
      ==> Identical(longs[i], longs[j])
  }

  /** What a name resolves to: an exact entry wins wherever it stands; otherwise the first
      abbreviated entry, provided all abbreviated entries mean the same. */
  ghost predicate Resolves(longs: seq<LongOption>, name: string, shortToo: bool, r: Resolution) {
    match r
    case Match(m) =>
      && m < |longs|
      && if HasExact(longs, name)
         then longs[m].name == name && forall i :: 0 <= i < m ==> longs[i].name != name
         else && PartialsAgree(longs, name, shortToo)
              && Abbreviates(name, longs[m], shortToo)
              && forall i :: 0 <= i < m ==> !Abbreviates(name, longs[i], shortToo)
    case Ambiguous => !HasExact(longs, name) && !PartialsAgree(longs, name, shortToo)
    case Unknown => !HasExact(longs, name) && !HasPartial(longs, name, shortToo)
  }

  // Exactly one answer fits.
  lemma ResolvesUnique(longs: seq<LongOption>, name: string, shortToo: bool, r: Resolution, s: Resolution)
    requires Resolves(longs, name, shortToo, r) && Resolves(longs, name, shortToo, s)
    ensures r == s
  {
  }

  // The table search as one left-to-right pass (src/getopt.c:225-248): match and ambiguous so far.
  function Search(longs: seq<LongOption>, name: string, shortToo: bool, i: nat, found: Option<nat>, ambiguous: bool): Resolution
    requires i <= |longs| && (found.Some? ==> found.value < |longs|)
    decreases |longs| - i
  {
    if i == |longs| then
      if ambiguous then Ambiguous else if found.Some? then Match(found.value) else Unknown
    else if longs[i].name == name then Match(i)
    else if !Abbreviates(name, longs[i], shortToo) then Search(longs, name, shortToo, i + 1, found, ambiguous)
    else if found.None? then Search(longs, name, shortToo, i + 1, Some(i), ambiguous)
    else Search(longs, name, shortToo, i + 1, found, ambiguous || !Identical(longs[i], longs[found.value]))
  }

  function Resolve(longs: seq<LongOption>, name: string, shortToo: bool): Resolution {
    Search(longs, name, shortToo, 0, None, false)
  }

  // What the variables of the search say about the entries already passed.
  ghost predicate SearchState(longs: seq<LongOption>, name: string, shortToo: bool, i: nat, found: Option<nat>, ambiguous: bool) {
    && i <= |longs|
    && (forall k :: 0 <= k < i ==> longs[k].name != name)
    && (found.None? ==> !ambiguous && forall k :: 0 <= k < i ==> !Abbreviates(name, longs[k], shortToo))
    && (found.Some? ==>
          && found.value < i && Abbreviates(name, longs[found.value], shortToo)
          && (forall k :: 0 <= k < found.value ==> !Abbreviates(name, longs[k], shortToo))
          && (ambiguous <==> exists k :: found.value < k < i && Abbreviates(name, longs[k], shortToo)
                                         && !Identical(longs[k], longs[found.value])))
  }

  lemma {:induction false} SearchResolves(longs: seq<LongOption>, name: string, shortToo: bool, i: nat, found: Option<nat>, ambiguous: bool)
    requires SearchState(longs, name, shortToo, i, found, ambiguous)
    ensures Resolves(longs, name, shortToo, Search(longs, name, shortToo, i, found, ambiguous))
    decreases |longs| - i
  {
    if i == |longs| {
      if found.Some? && !ambiguous {
        forall p, q | 0 <= p < q < |longs| && Abbreviates(name, longs[p], shortToo) && Abbreviates(name, longs[q], shortToo)
          ensures Identical(longs[p], longs[q])
        {
          assert p == found.value || Identical(longs[p], longs[found.value]);
          assert Identical(longs[q], longs[found.value]);
        }
      }
    } else if longs[i].name == name {
    } else if !Abbreviates(name, longs[i], shortToo) {
      SearchResolves(longs, name, shortToo, i + 1, found, ambiguous);
    } else if found.None? {
      SearchResolves(longs, name, shortToo, i + 1, Some(i), ambiguous);
    } else {
      var worse := ambiguous || !Identical(longs[i], longs[found.value]);
      SearchResolves(longs, name, shortToo, i + 1, found, worse);
    }
  }

  /** Resolve meets the declarative reading for every table and name. */
  lemma ResolveIsRight(longs: seq<LongOption>, name: string, shortToo: bool)
    ensures Resolves(longs, name, shortToo, Resolve(longs, name, shortToo))
  {
    SearchResolves(longs, name, shortToo, 0, None, false);
  }

  /** With shortToo off, a name is accepted iff it is in the table, or abbreviates something and
      all it abbreviates mean the same; it is ambiguous in exactly the other multi-match cases. */
  lemma AcceptedIff(longs: seq<LongOption>, name: string)
    ensures Resolve(longs, name, false).Match? <==>
      HasExact(longs, name) || (HasPartial(longs, name, false) && PartialsAgree(longs, name, false))
    ensures Resolve(longs, name, false).Ambiguous? <==> !HasExact(longs, name) && !PartialsAgree(longs, name, false)
  {
    ResolveIsRight(longs, name, false);
  }

  // src/getopt.c:213-248, with -1 for no match.
  method FindLong(longs: seq<LongOption>, name: string, shortToo: bool) returns (found: int, ambiguous: bool)
    ensures -1 <= found < |longs|
    ensures ambiguous ==> Resolves(longs, name, shortToo, Ambiguous)
    ensures !ambiguous && found == -1 ==> Resolves(longs, name, shortToo, Unknown)
    ensures !ambiguous && found != -1 ==> Resolves(longs, name, shortToo, Match(found))
  {
    found := -1;
    ambiguous := false;
    var i := 0;
    while i < |longs|
      invariant 0 <= i <= |longs| && -1 <= found < |longs|
      invariant SearchState(longs, name, shortToo, i, if found == -1 then None else Some(found), ambiguous)
    {
      if name <= longs[i].name {
        if |longs[i].name| == |name| {
          found := i;
          ambiguous := false;
          return;
        }
        if !(shortToo && |name| == 1) {
          if found == -1 {
            found := i;
          } else if !Identical(longs[i], longs[found]) {
            ambiguous := true;
          }
        }
      }
      i := i + 1;
    }
    SearchResolves(longs, name, shortToo, i, if found == -1 then None else Some(found), ambiguous);
  }
}
