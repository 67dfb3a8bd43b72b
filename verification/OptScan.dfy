/** getopt_internal of src/getopt.c with the variables it keeps from one call to the next. */
module OptScan {
  import opened CBase
  import opened LongOptions
  import opened OptSpec
  import opened Permute

  // Exchanging the middle two of four consecutive runs.
  lemma SwapMiddle<T>(s: seq<T>, x: seq<T>, skipped: seq<T>, tail: seq<T>, rest: seq<T>, start: nat, mid: nat, end: nat)
    requires s == x + skipped + tail + rest
    requires start == |x| && mid == start + |skipped| && end == mid + |tail|
    ensures BlockSwap(s, start, mid, end) == x + tail + skipped + rest
  {
    assert s[..start] == x;
    assert s[start..mid] == skipped;
    assert s[mid..end] == tail;
    assert s[end..] == rest;
  }

  // The part of the results the caller's switch looks at.
  function Calls(results: seq<Result>): (seen: seq<(int, Option<string>)>)
    ensures |seen| == |results|
  {
    seq(|results|, (i: nat) requires i < |results| => (results[i].ret, results[i].optarg))
  }

  class Getopt {
    var optind: nat
    var optopt: int
    var optarg: Option<string>
    var optreset: bool
    var longindex: nat
    var stored: map<nat, int>      // what option table entries stored through their flag address
    var place: string              // letters still to read in the current word
    var nonoptStart: int
    var nonoptEnd: int
    var posixlyCorrect: Option<bool>   // whether POSIXLY_CORRECT was set when last looked at
    // The scan in progress: it began at index base of orig; opts, skipped and tail are the words
    // between base and optind as they now stand; log is what the calls returned.
    ghost var active: bool
    ghost var base: nat
    ghost var orig: seq<string>
    ghost var opts: seq<string>
    ghost var skipped: seq<string>
    ghost var tail: seq<string>
    ghost var log: seq<Result>

    constructor ()
      ensures optind == 1 && !active && place == "" && !optreset && nonoptStart == nonoptEnd == -1
      ensures posixlyCorrect == None
    {
      optind, optopt, optarg, optreset := 1, '?' as int, None, false;
      longindex, stored, place, nonoptStart, nonoptEnd := 0, map[], "", -1, -1;
      posixlyCorrect := None;
      active, base, orig, opts, skipped, tail, log := false, 1, [], [], [], [], [];
    }

    ghost predicate Layout(nargv: array<string>)
      reads this, nargv
    {
      && base <= optind <= nargv.Length == |orig|
      && optind == base + |opts| + |skipped| + |tail|
      && nargv[..] == orig[..base] + opts + skipped + tail + orig[optind..]
      && (nonoptStart == -1 <==> skipped == [])
      && (nonoptStart == -1 ==> nonoptEnd == -1)
      && (nonoptStart != -1 ==> nonoptStart == base + |opts|)
      && (nonoptEnd == -1 ==> tail == [])
      && (nonoptEnd != -1 ==> nonoptEnd == nonoptStart + |skipped|)
    }

    /** The whole scan equals what has been handled so far followed by the scan of what is left. */
    ghost predicate History(cfg: Config)
      requires Usable(cfg)
      reads this
    {
      && base <= optind <= |orig| && (place != "" ==> optind < |orig|)
      && Scan(cfg, "", orig[base..]) == Prepend(log, opts + tail, skipped, Scan(cfg, place, orig[optind..]))
    }

    ghost predicate Scanning(cfg: Config, nargv: array<string>)
      requires Usable(cfg)
      reads this, nargv
    {
      Layout(nargv) && History(cfg) && optind != 0 && !optreset
      && (nonoptEnd != -1 && place == "" ==> tail != [])
      && (nonoptStart != -1 && place != "" ==> nonoptEnd != -1)
      && (cfg.mode != Permute ==> nonoptStart == -1)
    }

    /** Either a scan is under way, or the next call starts one at optind (at 1 if optind is 0). */
    ghost predicate Ready(cfg: Config, nargv: array<string>)
      requires Usable(cfg)
      reads this, nargv
    {
      && 1 <= nargv.Length && optind <= nargv.Length
      && (optreset || optind == 0
          || if active then Scanning(cfg, nargv) else place == "" && nonoptStart == nonoptEnd == -1)
    }

    ghost predicate Continues()
      reads this
    {
      active && !optreset && optind != 0
    }

    twostate predicate Shows(r: Result)
      reads this
    {
      && optarg == r.optarg
      && longindex == (if r.index.Some? then r.index.value else old(longindex))
      && stored == (if r.store.Some? then old(stored)[r.store.value.0 := r.store.value.1] else old(stored))
      && optopt == (if r.optopt.Some? then r.optopt.value else old(optopt))
    }

    // src/getopt.c:199-321; the text is the string place, in word nargv[optind].
    method ParseLongOptions(nargv: array<string>, cfg: Config, shortToo: bool) returns (ret: int)
      requires cfg.longs.Some? && optind < nargv.Length && optarg == None
      modifies this`optind, this`optarg, this`optopt, this`longindex, this`stored
      ensures var e := LongElem(cfg, cfg.longs.value, place, old(nargv[optind..]), shortToo);
        ret == e.ret && optind == old(optind) + e.used && Shows(Seen(e))
    {
      hide Resolve, Resolves, LongUse;
      var longs := cfg.longs.value;
      optind := optind + 1;
      var eq := IndexOf(place, '=');
      var found, ambiguous := FindLong(longs, place[..eq], shortToo);
      ResolveIsRight(longs, place[..eq], shortToo);
      ResolvesUnique(longs, place[..eq], shortToo, Resolve(longs, place[..eq], shortToo),
                     if ambiguous then Ambiguous else if found == -1 then Unknown else Match(found));
      if ambiguous {
        optopt := 0;
        return BADCH;
      }
      if found == -1 {
        if shortToo {
          optind := optind - 1;
          return -1;
        }
        optopt := 0;
        return BADCH;
      }
      ret := UseLong(nargv, cfg, found, eq);
    }

    // src/getopt.c:249-321: the entry found is used; eq is where an argument attached by '=' is, if any.
    method UseLong(nargv: array<string>, cfg: Config, found: nat, eq: nat) returns (ret: int)
      requires cfg.longs.Some? && found < |cfg.longs.value| && 1 <= optind <= nargv.Length && optarg == None && eq <= |place|
      modifies this`optind, this`optarg, this`optopt, this`longindex, this`stored
      ensures var arg := if eq < |place| then Some(place[eq + 1..]) else None;
        var e := LongUse(cfg, cfg.longs.value[found], found, arg, old(nargv[optind - 1..]));
        ret == e.ret && optind == old(optind) - 1 + e.used && Shows(Seen(e))
    {
      var hasEqual := eq < |place|;
      var o := cfg.longs.value[found];
      if o.hasArg == NO_ARGUMENT && hasEqual {
        optopt := if o.flag.None? then o.val else 0;
        return BadArg(cfg);
      }
      if o.hasArg == REQUIRED_ARGUMENT || o.hasArg == OPTIONAL_ARGUMENT {
        if hasEqual {
          optarg := Some(place[eq + 1..]);
        } else if o.hasArg == REQUIRED_ARGUMENT {
          optarg := if optind < nargv.Length then Some(nargv[optind]) else None;  // argv ends with NULL
          optind := optind + 1;
        }
      }
      if o.hasArg == REQUIRED_ARGUMENT && optarg == None {
        optopt := if o.flag.None? then o.val else 0;
        optind := optind - 1;
        return BadArg(cfg);
      }
      longindex := found;
      if o.flag.Some? {
        stored := stored[o.flag.value := o.val];
        return 0;
      }
      return o.val;
    }

    // src/getopt.c:440-517: one option at the letters place of word nargv[optind].
    method HandleElem(nargv: array<string>, cfg: Config, loneDash: bool) returns (ret: int)
      requires Usable(cfg) && optind < nargv.Length && optarg == None && place != ""
      modifies this`optind, this`optarg, this`optopt, this`longindex, this`stored, this`place
      ensures var e := ElemAt(cfg, old(place), loneDash, old(nargv[optind..]));
        ret == e.ret && optind == old(optind) + e.used && place == e.place && Shows(Seen(e))
    {
      ghost var words := nargv[optind..];
      if cfg.longs.Some? && !loneDash && (place[0] == '-' || cfg.longOnly) {
        var shortToo := false;
        if place[0] == '-' {
          place := place[1..];
        } else if place[0] != ':' && place[0] in cfg.options {
          shortToo := true;
        }
        LongProgress(cfg, place, words, shortToo);
        ret := ParseLongOptions(nargv, cfg, shortToo);
        if ret != -1 {
          place := "";
          return;
        }
        assert nargv[optind..] == words;
      }
      ret := HandleShort(nargv, cfg);
    }

    // src/getopt.c:462-517
    method HandleShort(nargv: array<string>, cfg: Config) returns (ret: int)
      requires Usable(cfg) && optind < nargv.Length && optarg == None && place != ""
      modifies this`optind, this`optarg, this`optopt, this`longindex, this`stored, this`place
      ensures var e := ShortElem(cfg, old(place), old(nargv[optind..]));
        ret == e.ret && optind == old(optind) + e.used && place == e.place && Shows(Seen(e))
    {
      assert [place[0]] + place[1..] == place;
      var optchar := place[0];
      place := place[1..];
      if optchar == ':' || (optchar == '-' && place != "") || optchar !in cfg.options {
        if optchar == '-' && place == "" {
          return -1;
        }
        if place == "" {
          optind := optind + 1;
        }
        optopt := optchar as int;
        return BADCH;
      }
      ret := HandleKnown(nargv, cfg, optchar);
    }

    // src/getopt.c:479-517, the letter already read and listed in options.
    method HandleKnown(nargv: array<string>, cfg: Config, optchar: char) returns (ret: int)
      requires Usable(cfg) && optind < nargv.Length && optarg == None && optchar in cfg.options && optchar != ':'
      requires optchar == '-' ==> place == ""
      modifies this`optind, this`optarg, this`optopt, this`longindex, this`stored, this`place
      ensures var e := ShortElem(cfg, [optchar] + old(place), old(nargv[optind..]));
        ret == e.ret && optind == old(optind) + e.used && place == e.place && Shows(Seen(e))
    {
      hide LongElem;
      ghost var words := nargv[optind..];
      assert ([optchar] + place)[1..] == place;
      var oli := IndexOf(cfg.options, optchar);
      if cfg.longs.Some? && optchar == 'W' && CharAt(cfg.options, oli + 1) == ';' {
        if place == "" {
          optind := optind + 1;
          if optind >= nargv.Length {
            optopt := optchar as int;
            return BadArg(cfg);
          }
          place := nargv[optind];
          assert nargv[optind..] == words[1..];
        }
        LongProgress(cfg, place, nargv[optind..], false);
        ret := ParseLongOptions(nargv, cfg, false);
        place := "";
        return;
      }
      if CharAt(cfg.options, oli + 1) != ':' {
        if place == "" {
          optind := optind + 1;
        }
      } else {
        if place != "" {
          optarg := Some(place);
        } else if CharAt(cfg.options, oli + 2) != ':' {
          optind := optind + 1;
          if optind >= nargv.Length {
            optopt := optchar as int;
            return BadArg(cfg);
          }
          optarg := Some(nargv[optind]);
        }
        place := "";
        optind := optind + 1;
      }
      return optchar as int;
    }

    // An option group starts at word optind: place holds its letters, and non-options skipped
    // before it (if any) end here.
    ghost predicate AtElem(cfg: Config, nargv: array<string>, loneDash: bool)
      requires Usable(cfg)
      reads this, nargv
    {
      && Layout(nargv) && optind != 0 && !optreset && optind < nargv.Length && place != ""
      && (nonoptStart != -1 ==> nonoptEnd != -1) && (cfg.mode != Permute ==> nonoptStart == -1)
      && Scan(cfg, "", orig[base..]) == Prepend(log, opts + tail, skipped, ScanElem(cfg, place, loneDash, orig[optind..]))
    }

    /** The scan has ended: what was returned, and where the words and optind now stand. */
    ghost predicate Finished(cfg: Config, nargv: array<string>, out: Outcome)
      reads this, nargv
    {
      && base <= |orig| && log == out.results && !out.stuck
      && nargv[..] == orig[..base] + out.opts + out.nonopts + out.rest
      && optind == base + |out.opts|
      && place == "" && nonoptStart == nonoptEnd == -1 && !optreset
    }

    // Puts the option words after the skipped words in front of them (the three calls of permute_args).
    method Rotate(nargv: array<string>)
      requires Layout(nargv) && nonoptEnd != -1 && tail != []
      modifies nargv, this`opts, this`tail
      ensures nargv[..] == orig[..base] + opts + skipped + orig[optind..]
      ensures opts == old(opts + tail) && tail == []
    {
      ghost var x, rest := orig[..base] + opts, orig[optind..];
      SwapMiddle(nargv[..], x, skipped, tail, rest, nonoptStart, nonoptEnd, optind);
      PermuteArgs(nonoptStart, nonoptEnd, optind, nargv);
      assert x + tail == orig[..base] + (opts + tail);
      opts, tail := opts + tail, [];
    }

    // End of argv, or "--" just passed (src/getopt.c:367-384, 430-436).
    method Finish(nargv: array<string>, cfg: Config, ghost done: Outcome)
      requires Layout(nargv) && place == "" && !optreset && (nonoptEnd != -1 ==> tail != [])
      requires done == Prepend(log, opts + tail, skipped, Outcome([], [], [], orig[optind..], false))
      modifies nargv, this`opts, this`tail, this`optind, this`nonoptStart, this`nonoptEnd, this`skipped
      ensures Finished(cfg, nargv, done)
    {
      if nonoptEnd != -1 {
        Rotate(nargv);
        optind := optind - (nonoptEnd - nonoptStart);
      } else if nonoptStart != -1 {
        optind := nonoptStart;
      }
      nonoptStart, nonoptEnd := -1, -1;
    }

    // The words from base on, with the next word moved to the end of skipped; and what that means.
    lemma SkipOne(cfg: Config, k: nat)
      requires Usable(cfg) && cfg.mode == Permute && base <= k < |orig| && IsNonOption(cfg, orig[k])
      ensures orig[..base] + opts + skipped + [] + orig[k..] == orig[..base] + opts + (skipped + [orig[k]]) + [] + orig[k + 1..]
      ensures Prepend(log, opts, skipped, Scan(cfg, "", orig[k..]))
        == Prepend(log, opts, skipped + [orig[k]], Scan(cfg, "", orig[k + 1..]))
    {
      hide Scan, ScanElem;
      assert orig[k..] == [orig[k]] + orig[k + 1..];
      assert orig[k..][1..] == orig[k + 1..];
      ScanNonOption(cfg, orig[k..]);
      PrependTwice(log, opts, skipped, [], [], [orig[k]], Scan(cfg, "", orig[k + 1..]));
      assert log + [] == log && opts + [] == opts;
    }

    // Puts any option words after the skipped words in front of them, so that the next non-option can
    // join the skipped ones (src/getopt.c:403-411).
    method JoinSkipped(nargv: array<string>)
      requires Layout(nargv) && (nonoptEnd != -1 ==> tail != [])
      modifies nargv, this`nonoptStart, this`nonoptEnd, this`opts, this`tail
      ensures nonoptStart == base + |opts| && nonoptEnd == -1 && opts == old(opts + tail) && tail == []
      ensures nargv[..] == orig[..base] + opts + skipped + orig[optind..]
    {
      if nonoptStart == -1 {
        nonoptStart := optind;
      } else if nonoptEnd != -1 {
        Rotate(nargv);
        nonoptStart := optind - (nonoptEnd - nonoptStart);
        nonoptEnd := -1;
      }
    }

    // A non-option when words are to be permuted (src/getopt.c:403-413).
    method SkipWord(nargv: array<string>, cfg: Config)
      requires Usable(cfg) && Scanning(cfg, nargv) && place == "" && optind < nargv.Length
      requires cfg.mode == Permute && IsNonOption(cfg, orig[optind])
      modifies nargv, this`optind, this`nonoptStart, this`nonoptEnd, this`opts, this`skipped, this`tail
      ensures Scanning(cfg, nargv) && optind == old(optind) + 1
    {
      hide Scan, ScanElem, Prepend, IsNonOption;
      ghost var k := optind;
      JoinSkipped(nargv);
      SkipOne(cfg, k);
      optind := optind + 1;
      skipped := skipped + [orig[k]];
      assert opts + tail == opts;
    }

    // The next word counted as an option with itself as argument; and what that means.
    lemma TakeOne(cfg: Config, k: nat)
      requires Usable(cfg) && cfg.mode == InOrder && base <= k < |orig| && IsNonOption(cfg, orig[k])
      ensures orig[..base] + opts + [] + [] + orig[k..] == orig[..base] + (opts + [orig[k]]) + [] + [] + orig[k + 1..]
      ensures Prepend(log, opts, [], Scan(cfg, "", orig[k..]))
        == Prepend(log + [InOrderResult(orig[k])], opts + [orig[k]], [], Scan(cfg, "", orig[k + 1..]))
    {
      hide Scan, ScanElem;
      assert orig[k..] == [orig[k]] + orig[k + 1..];
      assert orig[k..][1..] == orig[k + 1..];
      ScanNonOption(cfg, orig[k..]);
      PrependTwice(log, opts, [], [InOrderResult(orig[k])], [orig[k]], [], Scan(cfg, "", orig[k + 1..]));
    }

    // A non-option returned as the argument of option 1 (src/getopt.c:388-395).
    method TakeWord(nargv: array<string>, cfg: Config) returns (ret: int)
      requires Usable(cfg) && Scanning(cfg, nargv) && place == "" && optind < nargv.Length && optarg == None
      requires cfg.mode == InOrder && IsNonOption(cfg, orig[optind])
      modifies this`optind, this`optarg, this`opts, this`log
      ensures Scanning(cfg, nargv) && ret == INORDER && optarg.Some? && log == old(log) + [InOrderResult(optarg.value)]
    {
      hide Scan, ScanElem, Prepend, IsNonOption;
      ghost var k := optind;
      assert opts + tail == opts && skipped == [] == tail;
      TakeOne(cfg, k);
      optarg := Some(nargv[optind]);
      assert optarg.value == orig[k];
      optind := optind + 1;
      opts := opts + [orig[k]];
      log := log + [InOrderResult(orig[k])];
      assert opts + tail == opts;
      return INORDER;
    }

    // "--" ends the options (src/getopt.c:423-437).
    method PassDashes(nargv: array<string>, cfg: Config)
      requires Usable(cfg) && Layout(nargv) && optind < nargv.Length && orig[optind] == "--" && place == "" && !optreset
      requires (nonoptStart != -1 ==> nonoptEnd != -1)
      requires Scan(cfg, "", orig[base..]) == Prepend(log, opts + tail, skipped, Outcome([], ["--"], [], orig[optind + 1..], false))
      modifies nargv, this`optind, this`nonoptStart, this`nonoptEnd, this`opts, this`skipped, this`tail
      ensures Finished(cfg, nargv, Scan(cfg, "", orig[base..]))
    {
      hide Scan, ScanElem;
      ghost var k := optind;
      assert orig[k..] == ["--"] + orig[k + 1..];
      optind := optind + 1;
      if nonoptEnd == -1 {
        opts := opts + ["--"];
      } else {
        assert opts + tail + ["--"] == opts + (tail + ["--"]);
        tail := tail + ["--"];
      }
      Finish(nargv, cfg, Scan(cfg, "", orig[base..]));
    }

    // An option word (src/getopt.c:417-438).
    method OpenGroup(nargv: array<string>, cfg: Config) returns (found: bool, loneDash: bool)
      requires Usable(cfg) && Scanning(cfg, nargv) && place == "" && optind < nargv.Length
      requires !IsNonOption(cfg, orig[optind])
      modifies nargv, this`optind, this`place, this`nonoptStart, this`nonoptEnd, this`opts, this`skipped, this`tail
      ensures found ==> AtElem(cfg, nargv, loneDash)
      ensures !found ==> Finished(cfg, nargv, Scan(cfg, "", orig[base..]))
    {
      hide Scan, ScanElem;
      ScanOption(cfg, orig[optind..]);
      assert nargv[optind] == orig[optind];
      place := nargv[optind];
      if nonoptStart != -1 && nonoptEnd == -1 {
        nonoptEnd := optind;
      }
      if |place| == 1 {
        return true, true;
      }
      place := place[1..];
      if place == "-" {
        place := "";
        PassDashes(nargv, cfg);
        return false, false;
      }
      return true, false;
    }

    // The start: loop of src/getopt.c:364-438. found: an option group begins at word optind;
    // otherwise ret is the value to return.
    method NextGroup(nargv: array<string>, cfg: Config) returns (found: bool, ret: int, loneDash: bool)
      requires Usable(cfg) && Scanning(cfg, nargv) && place == "" && optarg == None
      modifies nargv, this`optind, this`optarg, this`place, this`nonoptStart, this`nonoptEnd,
               this`opts, this`skipped, this`tail, this`log
      ensures found ==> AtElem(cfg, nargv, loneDash) && optarg == None && log == old(log)
      ensures !found && ret != -1 ==>
        Scanning(cfg, nargv) && ret == INORDER && optarg.Some? && log == old(log) + [InOrderResult(optarg.value)]
      ensures !found && ret == -1 ==> Finished(cfg, nargv, Scan(cfg, "", orig[base..])) && log == old(log)
    {
      hide Scan, ScanElem;
      while optind < nargv.Length
        invariant Scanning(cfg, nargv) && place == "" && optarg == None && log == old(log)
        decreases nargv.Length - optind
      {
        assert nargv[optind] == orig[optind];
        var word := nargv[optind];
        if word == "" || word[0] != '-' || (|word| == 1 && '-' !in cfg.options) {
          if cfg.mode == InOrder {
            ret := TakeWord(nargv, cfg);
            return false, ret, false;
          }
          if cfg.mode != Permute {
            ScanNonOption(cfg, orig[optind..]);
            return false, -1, false;
          }
          SkipWord(nargv, cfg);
        } else {
          found, loneDash := OpenGroup(nargv, cfg);
          return found, -1, loneDash;
        }
      }
      assert orig[optind..] == [];
      ScanAtEnd(cfg);
      Finish(nargv, cfg, Scan(cfg, "", orig[base..]));
      return false, -1, false;
    }

    // Words k to m handled as one option with result r: what that means for the whole scan.
    lemma TakeGroup(cfg: Config, r: Result, k: nat, m: nat)
      requires Usable(cfg) && base <= k <= m <= |orig| && (place != "" ==> m < |orig|)
      ensures Prepend(log, opts + tail, skipped, Prepend([r], orig[k..m], [], Scan(cfg, place, orig[m..])))
        == Prepend(log + [r], opts + tail + orig[k..m], skipped, Scan(cfg, place, orig[m..]))
      ensures orig[..base] + opts + skipped + tail + orig[k..] == orig[..base] + opts + skipped + (tail + orig[k..m]) + orig[m..]
    {
      hide Scan, ScanElem;
      PrependTwice(log, opts + tail, skipped, [r], orig[k..m], [], Scan(cfg, place, orig[m..]));
      assert skipped + [] == skipped;
      assert orig[k..] == orig[k..m] + orig[m..];
    }

    // The words used up go to the options, or after the skipped words if there are any.
    ghost method Advance(nargv: array<string>, cfg: Config, e: Elem, k: nat)
      requires Usable(cfg) && e.ret != -1 && k + e.used == optind && base <= k < nargv.Length == |orig|
      requires place == e.place && optind <= nargv.Length && optind != 0 && !optreset && (place != "" ==> optind < |orig|)
      requires (place != "" && e.used == 0) || (place == "" && e.used >= 1)
      requires k == base + |opts| + |skipped| + |tail|
      requires nargv[..] == orig[..base] + opts + skipped + tail + orig[k..]
      requires (nonoptStart == -1 <==> skipped == []) && (nonoptStart == -1 <==> nonoptEnd == -1)
      requires nonoptStart != -1 ==> nonoptStart == base + |opts| && nonoptEnd == nonoptStart + |skipped|
      requires nonoptStart == -1 ==> tail == []
      requires cfg.mode != Permute ==> nonoptStart == -1
      requires Scan(cfg, "", orig[base..]) ==
        Prepend(log, opts + tail, skipped, Prepend([Seen(e)], orig[k..optind], [], Scan(cfg, place, orig[optind..])))
      modifies this`opts, this`tail, this`log
      ensures Scanning(cfg, nargv) && log == old(log) + [Seen(e)]
    {
      hide Scan, ScanElem, Prepend;
      var w := orig[k..optind];
      TakeGroup(cfg, Seen(e), k, optind);
      log := log + [Seen(e)];
      if nonoptEnd == -1 {
        assert opts + tail + w == (opts + w) + tail && opts + skipped + (tail + w) == (opts + w) + skipped + tail;
        assert orig[..base] + opts + skipped + (tail + w) == orig[..base] + (opts + w) + skipped + tail;
        opts := opts + w;
      } else {
        assert opts + tail + w == opts + (tail + w);
        tail := tail + w;
      }
    }

    /** One result r was added to the log, and the caller sees it as ret, optarg and the other outputs. */
    twostate predicate Returned(continues: bool, before: seq<Result>, ret: int)
      reads this
    {
      && |log| >= 1 && log == (if continues then before else []) + [log[|log| - 1]]
      && log[|log| - 1].ret == ret && Shows(log[|log| - 1])
    }

    /** After -1: everything the reference scan returns has been returned, and unless it is stuck
        the words are partitioned and the next call may start a new scan. */
    ghost predicate Ended(cfg: Config, nargv: array<string>, out: Outcome)
      requires Usable(cfg)
      reads this, nargv
    {
      && log == out.results && base <= optind <= nargv.Length
      && if out.stuck then Layout(nargv) && opts + tail == out.opts && skipped == out.nonopts && orig[optind..] == out.rest
         else Finished(cfg, nargv, out) && Ready(cfg, nargv)
    }

    /** What one call does, seen from the state before it: a call that returns an option appends what the
        reference scan says comes next; a call that returns -1 leaves the option words first, the skipped
        words after them, and optind between the two. */
    twostate predicate OneCall(nargv: array<string>, cfg: Config, ret: int)
      requires Usable(cfg)
      reads this, nargv
    {
      && (if old(Continues()) then base == old(base) && orig == old(orig)
          else base == (if old(optind) == 0 then 1 else old(optind)) && orig == old(nargv[..]))
      && (ret != -1 ==> active && Scanning(cfg, nargv) && Returned(old(Continues()), old(log), ret))
      && (ret == -1 ==> !active && log == (if old(Continues()) then old(log) else []))
      && base <= |orig| && (ret == -1 ==> Ended(cfg, nargv, Scan(cfg, "", orig[base..])))
    }

    // The environment is looked at by the first call and whenever a scan is started anew (src/getopt.c:352-353).
    function Posix(env: bool): bool
      reads this
    {
      if posixlyCorrect == None || optreset || optind == 0 then env else posixlyCorrect.value
    }

    /** getopt_internal (src/getopt.c:327-518), one call; env tells whether POSIXLY_CORRECT is set, permute and
        longOnly are the flags. */
    method GetoptInternal(nargv: array<string>, options: Option<string>, longs: Option<seq<LongOption>>, permute: bool,
                          longOnly: bool, env: bool)
        returns (ret: int)
      requires options.Some? ==>
        var cfg := MakeConfig(options.value, longs, permute, longOnly, Posix(env)); Usable(cfg) && Ready(cfg, nargv)
      modifies this, nargv
      ensures options.None? ==> ret == -1 && unchanged(this) && unchanged(nargv)
      ensures options.Some? ==>
        var cfg := MakeConfig(options.value, longs, permute, longOnly, old(Posix(env)));
        OneCall(nargv, cfg, ret) && posixlyCorrect == Some(old(Posix(env)))
    {
      hide Scan, ScanElem, Prepend, MakeConfig;
      if options.None? {
        return -1;
      }
      if posixlyCorrect == None || optreset || optind == 0 {
        posixlyCorrect := Some(env);
      }
      var cfg := MakeConfig(options.value, longs, permute, longOnly, posixlyCorrect.value);
      ret := NextResult(nargv, cfg);
    }

    // src/getopt.c:338-343, 361-518: one call with mode and letters settled.
    method NextResult(nargv: array<string>, cfg: Config) returns (ret: int)
      requires Usable(cfg) && Ready(cfg, nargv)
      modifies this, nargv
      ensures OneCall(nargv, cfg, ret) && posixlyCorrect == old(posixlyCorrect)
    {
      hide Scan, ScanElem, Prepend;
      Restart(nargv, cfg);
      ret := Proceed(nargv, cfg);
    }

    // src/getopt.c:364-518 once a scan is under way.
    method Proceed(nargv: array<string>, cfg: Config) returns (ret: int)
      requires Usable(cfg) && Scanning(cfg, nargv) && active && optarg == None
      modifies this, nargv
      ensures base == old(base) && orig == old(orig) && posixlyCorrect == old(posixlyCorrect)
      ensures ret != -1 ==> active && Scanning(cfg, nargv) && Returned(true, old(log), ret)
      ensures ret == -1 ==> !active && base <= |orig| && log == old(log)
      ensures ret == -1 ==> Ended(cfg, nargv, Scan(cfg, "", orig[base..]))
    {
      hide Scan, ScanElem, ElemAt, Prepend;
      if place == "" {
        var found, loneDash;
        found, ret, loneDash := NextGroup(nargv, cfg);
        if found {
          ret := FinishElem(nargv, cfg, loneDash);
        } else {
          active := ret != -1;
        }
      } else {
        ScanInside(cfg, place, orig[optind..]);
        ret := FinishElem(nargv, cfg, false);
      }
    }

    // src/getopt.c:342-363: optind 0 or optreset starts a new scan.
    method Restart(nargv: array<string>, cfg: Config)
      requires Usable(cfg) && Ready(cfg, nargv)
      modifies this`optind, this`optreset, this`optarg, this`nonoptStart, this`nonoptEnd, this`place,
               this`active, this`base, this`orig, this`opts, this`skipped, this`tail, this`log
      ensures Scanning(cfg, nargv) && active && optarg == None
      ensures if old(Continues()) then base == old(base) && orig == old(orig) && log == old(log)
              else base == (if old(optind) == 0 then 1 else old(optind)) && orig == nargv[..] && log == []
    {
      hide Scan, ScanElem, Prepend;
      if optind == 0 {
        optind := 1;
        optreset := true;
      }
      optarg := None;
      if optreset {
        nonoptStart, nonoptEnd := -1, -1;
        place := "";
      }
      if !active || optreset {
        Begin(nargv, cfg);
      }
      optreset := false;
    }

    ghost method Begin(nargv: array<string>, cfg: Config)
      requires Usable(cfg) && optind <= nargv.Length && place == "" && nonoptStart == nonoptEnd == -1 && optind != 0
      modifies this`active, this`base, this`orig, this`opts, this`skipped, this`tail, this`log
      ensures active && base == optind && orig == nargv[..] && log == []
      ensures !optreset ==> Scanning(cfg, nargv)
      ensures Layout(nargv) && History(cfg)
    {
      hide Scan, ScanElem;
      active, base, orig, opts, skipped, tail, log := true, optind, nargv[..], [], [], [], [];
    }

    // The option at hand (src/getopt.c:440-517), and the words it uses up.
    method FinishElem(nargv: array<string>, cfg: Config, loneDash: bool) returns (ret: int)
      requires Usable(cfg) && AtElem(cfg, nargv, loneDash) && optarg == None && active
      modifies this, nargv
      ensures base == old(base) && orig == old(orig) && posixlyCorrect == old(posixlyCorrect)
      ensures ret != -1 ==> active && Scanning(cfg, nargv) && Returned(true, old(log), ret)
      ensures ret == -1 ==> !active && log == old(log)
      ensures ret == -1 ==> Ended(cfg, nargv, Scan(cfg, "", orig[base..]))
    {
      hide Scan, ElemAt;
      ghost var k, e := optind, ElemAt(cfg, place, loneDash, orig[optind..]);
      assert nargv[optind..] == orig[optind..];
      ElemProgress(cfg, place, loneDash, orig[optind..]);
      ret := HandleElem(nargv, cfg, loneDash);
      if ret == -1 {
        active := false;
      } else {
        Advance(nargv, cfg, e, k);
      }
    }

    // The last options read still stand behind the skipped words.
    static ghost predicate StuckLayout(words: seq<string>, front: seq<string>, out: Outcome) {
      exists k: nat :: k <= |out.opts| && words == front + out.opts[..k] + out.nonopts + out.opts[k..] + out.rest
    }

    // No more has been returned than the whole scan returns.
    lemma LogWithin(cfg: Config, nargv: array<string>)
      requires Usable(cfg) && Scanning(cfg, nargv)
      ensures |log| <= |Scan(cfg, "", orig[base..]).results|
    {
      hide Scan, ScanElem, Layout;
    }

    // After a call that returned an option the next call goes on with the same scan.
    lemma GoesOn(nargv: array<string>, cfg: Config, env: bool)
      requires Usable(cfg) && active && Scanning(cfg, nargv) && posixlyCorrect.Some? && nargv.Length >= 1
      ensures Ready(cfg, nargv) && Continues() && Posix(env) == posixlyCorrect.value
    {
      hide Scan, ScanElem, Prepend;
    }

    lemma AtTheEnd(nargv: array<string>, cfg: Config, out: Outcome)
      requires Usable(cfg) && Ended(cfg, nargv, out) && base <= |orig|
      ensures log == out.results
      ensures if out.stuck then StuckLayout(nargv[..], orig[..base], out)
              else nargv[..] == orig[..base] + out.opts + out.nonopts + out.rest
      ensures optind == base + |out.opts| + if out.stuck then |out.nonopts| else 0
    {
      hide Scan, ScanElem, Prepend, Ready;
      if out.stuck {
        assert out.opts[..|opts|] == opts && out.opts[|opts|..] == tail;
      }
    }

    /** The caller's loop (src/main.c:132-154): call until -1. The results are those of the reference
        scan of the words as they were, and they end up partitioned with optind at the boundary. */
    method ScanArgs(nargv: array<string>, options: string, longs: Option<seq<LongOption>>, permute: bool, longOnly: bool, env: bool)
        returns (seen: seq<(int, Option<string>)>)
      requires var cfg := MakeConfig(options, longs, permute, longOnly, Posix(env)); Usable(cfg) && Ready(cfg, nargv)
      requires !Continues()
      modifies this, nargv
      ensures var cfg := MakeConfig(options, longs, permute, longOnly, old(Posix(env)));
        var start := if old(optind) == 0 then 1 else old(optind);
        start <= nargv.Length && var out := Scan(cfg, "", old(nargv[..])[start..]);
        && seen == Calls(out.results)
        && (if out.stuck then StuckLayout(nargv[..], old(nargv[..])[..start], out)
            else nargv[..] == old(nargv[..])[..start] + out.opts + out.nonopts + out.rest)
        && optind == start + |out.opts| + if out.stuck then |out.nonopts| else 0
    {
      hide Scan, ScanElem, Prepend, MakeConfig, Scanning, Ready, Ended, StuckLayout;
      seen := [];
      ghost var posix := Posix(env);
      ghost var cfg := MakeConfig(options, longs, permute, longOnly, posix);
      var ret := GetoptInternal(nargv, Some(options), longs, permute, longOnly, env);
      ghost var start, words := base, orig;
      ghost var out := Scan(cfg, "", words[start..]);
      if ret != -1 {
        LogWithin(cfg, nargv);
        GoesOn(nargv, cfg, env);
      }
      while ret != -1
        invariant base == start && orig == words && start <= |words| == nargv.Length && posixlyCorrect == Some(posix)
        invariant ret != -1 ==> active && Scanning(cfg, nargv) && |log| >= 1 && log[|log| - 1].ret == ret && log[|log| - 1].optarg == optarg
        invariant ret != -1 ==> seen == Calls(log[..|log| - 1]) && |log| <= |out.results|
        invariant ret != -1 ==> Ready(cfg, nargv) && Continues() && Posix(env) == posix
        invariant ret == -1 ==> seen == Calls(log) && Ended(cfg, nargv, out)
        decreases ret != -1, |out.results| - |log|
      {
        assert log[..|log| - 1] + [log[|log| - 1]] == log;
        seen := seen + [(ret, optarg)];
        ghost var before := log;
        ret := GetoptInternal(nargv, Some(options), longs, permute, longOnly, env);
        if ret != -1 {
          assert log[..|log| - 1] == before;
          LogWithin(cfg, nargv);
          GoesOn(nargv, cfg, env);
        }
      }
      AtTheEnd(nargv, cfg, out);
    }
  }
}
