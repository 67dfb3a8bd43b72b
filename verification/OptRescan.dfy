/** What the rearrangement is for: a scanner that stops at the first non-option, run on the
    rearranged words, sees the same options with the same arguments. */
module OptRescan {
  import opened CBase
  import opened LongOptions
  import opened OptSpec

  function Stopping(cfg: Config): Config {
    cfg.(mode := StopAtFirst)
  }

  // Some option wanted an argument and the words had run out.
  predicate RunsShort(cfg: Config, place: string, words: seq<string>)
    requires Usable(cfg) && (place != "" ==> words != [])
    decreases |words|, LettersLeft(place, words), 1
  {
    if place != "" then ElemRunsShort(cfg, place, false, words)
    else if words == [] || words[0] == "--" then false
    else if IsNonOption(cfg, words[0]) then cfg.mode != StopAtFirst && RunsShort(cfg, "", words[1..])
    else if words[0] == "-" then ElemRunsShort(cfg, "-", true, words)
    else ElemRunsShort(cfg, words[0][1..], false, words)
  }

  predicate ElemRunsShort(cfg: Config, place: string, loneDash: bool, words: seq<string>)
    requires Usable(cfg) && place != "" && words != []
    decreases |words|, |place|, 0
  {
    var e := ElemAt(cfg, place, loneDash, words);
    ElemProgress(cfg, place, loneDash, words);
    e.ret != -1 && (e.starved || RunsShort(cfg, e.place, words[e.used..]))
  }

  // How many words one option looks at.
  function Reach(e: Elem): nat {
    if e.used == 0 then 1 else e.used
  }

  predicate Agree(w: seq<string>, v: seq<string>, n: nat) {
    n <= |w| && n <= |v| && w[..n] == v[..n]
  }

  // A long option depends only on the words it uses, unless it ran out of them ...
  lemma LongExtends(cfg: Config, text: string, words: seq<string>, more: seq<string>, shortToo: bool)
    requires Usable(cfg) && cfg.longs.Some? && words != [] && more != []
    ensures var e := LongElem(cfg, cfg.longs.value, text, words, shortToo);
      var f := LongElem(Stopping(cfg), cfg.longs.value, text, more, shortToo);
      && ((!e.starved && Agree(words, more, Reach(e))) || more == words ==> f == e)
      && (e.starved ==> |words| == e.used && (|more| > |words| ==> f.ret != -1 && f.place == "" && f.used == e.used + 1))
  {
    ResolveInRange(cfg.longs.value, text[..IndexOf(text, '=')], shortToo);
    var e := LongElem(cfg, cfg.longs.value, text, words, shortToo);
    if !e.starved && Agree(words, more, Reach(e)) && e.used == 2 {
      assert words[..2][1] == words[1] && more[..2][1] == more[1];
    }
  }

  // "-W name": the name stands in the next word.
  lemma WideExtends(cfg: Config, words: seq<string>, more: seq<string>)
    requires Usable(cfg) && cfg.longs.Some? && |words| > 1 && |more| > 1
    ensures var e := LongElem(cfg, cfg.longs.value, words[1], words[1..], false);
      var f := LongElem(Stopping(cfg), cfg.longs.value, more[1], more[1..], false);
      && e.ret != -1 && e.used >= 1 && f.ret != -1 && f.place == ""
      && ((!e.starved && Agree(words, more, e.used + 1)) || more == words ==> f == e)
      && (e.starved ==> |words| == e.used + 1)
      && (e.starved && Agree(words, more, |words|) && |more| > |words| ==> f.used > e.used)
  {
    hide LongElem;
    var e := LongElem(cfg, cfg.longs.value, words[1], words[1..], false);
    LongProgress(cfg, words[1], words[1..], false);
    LongProgress(Stopping(cfg), more[1], more[1..], false);
    LongExtends(cfg, words[1], words[1..], more[1..], false);
    if Agree(words, more, e.used + 1) {
      assert words[..e.used + 1][1..] == words[1..][..e.used];
      assert more[..e.used + 1][1..] == more[1..][..e.used];
      assert words[..e.used + 1][1] == more[..e.used + 1][1];
    }
  }

  lemma ShortExtends(cfg: Config, place: string, words: seq<string>, more: seq<string>)
    requires Usable(cfg) && place != "" && words != [] && more != []
    ensures var e, f := ShortElem(cfg, place, words), ShortElem(Stopping(cfg), place, more);
      && ((!e.starved && Agree(words, more, Reach(e))) || more == words ==> f == e)
      && (e.starved && Agree(words, more, |words|) && |more| > |words| ==> f.ret != -1 && f.place == "" && f.used > e.used)
      && (e.starved ==> |words| == e.used)
  {
    hide LongElem, IndexOf, Agree;
    if cfg.longs.Some? {
      if |place| > 1 {
        LongExtends(cfg, place[1..], words, more, false);
      } else if |words| > 1 {
        WideExtends(cfg, words, if |more| > 1 then more else words);
      } else if |more| > 1 {
        LongProgress(Stopping(cfg), more[1], more[1..], false);
      }
    }
    AgreeSecond(words, more);
  }

  lemma AgreeSecond(w: seq<string>, v: seq<string>)
    ensures forall n: nat :: n >= 2 && Agree(w, v, n) ==> |w| > 1 && |v| > 1 && w[1] == v[1]
  {
    forall n: nat | n >= 2 && Agree(w, v, n) ensures |w| > 1 && |v| > 1 && w[1] == v[1] {
      assert w[..n][1] == w[1] && v[..n][1] == v[1];
    }
  }

  // ... and so does any option.
  lemma ElemExtends(cfg: Config, place: string, loneDash: bool, words: seq<string>, more: seq<string>)
    requires Usable(cfg) && place != "" && words != [] && more != []
    ensures var e, f := ElemAt(cfg, place, loneDash, words), ElemAt(Stopping(cfg), place, loneDash, more);
      && ((!e.starved && Agree(words, more, Reach(e))) || more == words ==> f == e)
      && (e.starved && Agree(words, more, |words|) && |more| > |words| ==> f.ret != -1 && f.place == "" && f.used > e.used)
      && (e.starved ==> |words| == e.used)
  {
    hide LongElem, ShortElem;
    ShortExtends(cfg, place, words, more);
    if TriesLong(cfg, place, loneDash) {
      var text, shortToo := LongText(place), ShortToo(cfg, place);
      LongExtends(cfg, text, words, more, shortToo);
      LongProgress(cfg, text, words, shortToo);
      LongProgress(Stopping(cfg), text, more, shortToo);
      LongOutcomeSame(cfg, text, words, more, shortToo);
    }
  }

  lemma LongOutcomeSame(cfg: Config, text: string, words: seq<string>, more: seq<string>, shortToo: bool)
    requires Usable(cfg) && cfg.longs.Some? && words != [] && more != []
    ensures LongElem(cfg, cfg.longs.value, text, words, shortToo).ret == -1
      <==> LongElem(Stopping(cfg), cfg.longs.value, text, more, shortToo).ret == -1
  {
    ResolveInRange(cfg.longs.value, text[..IndexOf(text, '=')], shortToo);
  }

  // Inside a word, the scan's first option word is that word.
  lemma OpensWithWord(cfg: Config, place: string, words: seq<string>)
    requires Usable(cfg) && place != "" && words != [] && !Scan(cfg, place, words).stuck
    ensures var out := Scan(cfg, place, words); out.opts != [] && out.opts[0] == words[0]
    decreases |place|
  {
    hide ElemAt;
    var e := ElemAt(cfg, place, false, words);
    ElemProgress(cfg, place, false, words);
    if e.used == 0 {
      OpensWithWord(cfg, e.place, words);
    }
  }

  // more can follow the option words of a scan without being taken for options: after "--" anything
  // can, otherwise nothing or a non-option.
  predicate Fits(cfg: Config, out: Outcome, more: seq<string>) {
    more == [] || IsNonOption(cfg, more[0]) || out.rest != []
  }

  // Scanning the option words of out, followed by more, again.
  ghost predicate SameAgain(again: Outcome, out: Outcome, more: seq<string>, short: bool) {
    if short && more != [] then |again.opts| > |out.opts|
    else again == Outcome(out.results, out.opts, [], more, false)
  }

  lemma ElemRescans(cfg: Config, place: string, loneDash: bool, words: seq<string>, more: seq<string>)
    requires Usable(cfg) && place != "" && words != [] && !ElemAt(cfg, place, loneDash, words).starved
    requires ElemAt(cfg, place, loneDash, words).ret != -1
    requires var e := ElemAt(cfg, place, loneDash, words);
      e.used <= |words| && (e.place != "" ==> e.used == 0) && !Scan(cfg, e.place, words[e.used..]).stuck
      && var sub := Scan(cfg, e.place, words[e.used..]);
      (e.place != "" ==> sub.opts + more != [])
      && SameAgain(Scan(Stopping(cfg), e.place, sub.opts + more), sub, more, RunsShort(cfg, e.place, words[e.used..]))
    ensures var out := ScanElem(cfg, place, loneDash, words);
      out.opts != [] && out.opts[0] == words[0]
      && SameAgain(ScanElem(Stopping(cfg), place, loneDash, out.opts + more), out, more, ElemRunsShort(cfg, place, loneDash, words))
  {
    hide ElemAt, Scan;
    var e := ElemAt(cfg, place, loneDash, words);
    ElemProgress(cfg, place, loneDash, words);
    var sub := Scan(cfg, e.place, words[e.used..]);
    var all := words[..e.used] + sub.opts + more;
    if e.used == 0 {
      assert words[0..] == words;
      OpensWithWord(cfg, e.place, words);
      assert all == sub.opts + more;
      assert all[..1] == [words[0]] == words[..1];
    } else {
      assert all[..e.used] == words[..e.used];
    }
    assert all[e.used..] == sub.opts + more;
    ElemExtends(cfg, place, loneDash, words, all);
  }

  lemma StarvedRescans(cfg: Config, place: string, loneDash: bool, words: seq<string>, more: seq<string>)
    requires Usable(cfg) && place != "" && words != [] && ElemAt(cfg, place, loneDash, words).starved
    requires ElemAt(cfg, place, loneDash, words).ret != -1
    ensures var out := ScanElem(cfg, place, loneDash, words);
      out.opts == words
      && SameAgain(ScanElem(Stopping(cfg), place, loneDash, out.opts + more), out, more, ElemRunsShort(cfg, place, loneDash, words))
  {
    hide ElemAt, Scan;
    var e := ElemAt(cfg, place, loneDash, words);
    ElemProgress(cfg, place, loneDash, words);
    var all := words + more;
    ElemExtends(cfg, place, loneDash, words, all);
    ScanAtEnd(cfg);
    ScanAtEnd(Stopping(cfg));
    assert words[e.used..] == [] && words[..e.used] == words;
    if more == [] {
      assert all == words;
    } else {
      var f := ElemAt(Stopping(cfg), place, loneDash, all);
      ElemProgress(Stopping(cfg), place, loneDash, all);
      assert all[..|words|] == words;
    }
  }

  lemma {:induction false} ScanRescans(cfg: Config, place: string, words: seq<string>, more: seq<string>)
    requires Usable(cfg) && cfg.mode == Permute && (place != "" ==> words != [])
    requires !Scan(cfg, place, words).stuck && Fits(cfg, Scan(cfg, place, words), more)
    ensures var out := Scan(cfg, place, words);
      (place != "" ==> out.opts + more != [])
      && SameAgain(Scan(Stopping(cfg), place, out.opts + more), out, more, RunsShort(cfg, place, words))
    decreases |words|, LettersLeft(place, words)
  {
    hide ElemAt;
    var out := Scan(cfg, place, words);
    if place == "" && words == [] {
      assert out.opts + more == more;
    } else if place == "" && IsNonOption(cfg, words[0]) {
      ScanRescans(cfg, "", words[1..], more);
      assert out.opts == Scan(cfg, "", words[1..]).opts;
    } else if place == "" && words[0] == "--" {
      assert (["--"] + more)[1..] == more;
    } else {
      var loneDash := place == "" && words[0] == "-";
      var letters := if place != "" then place else if loneDash then "-" else words[0][1..];
      var e := ElemAt(cfg, letters, loneDash, words);
      ElemProgress(cfg, letters, loneDash, words);
      if e.starved {
        StarvedRescans(cfg, letters, loneDash, words, more);
      } else {
        ScanRescans(cfg, e.place, words[e.used..], more);
        ElemRescans(cfg, letters, loneDash, words, more);
      }
    }
  }

  /** After a permuting scan, a scan that stops at the first non-option sees the very same options
      in the rearranged words, and leaves the same words over: unless words were moved behind a last
      option that had run out of arguments, which would then swallow one of them. */
  lemma PosixRescan(cfg: Config, words: seq<string>)
    requires Usable(cfg) && cfg.mode == Permute && !Scan(cfg, "", words).stuck
    ensures var out := Scan(cfg, "", words);
      var moved := out.nonopts + out.rest;
      (Scan(Stopping(cfg), "", out.opts + out.nonopts + out.rest) == Outcome(out.results, out.opts, [], moved, false))
      <==> (!RunsShort(cfg, "", words) || moved == [])
  {
    hide Scan, ElemAt, RunsShort;
    var out := Scan(cfg, "", words);
    var moved := out.nonopts + out.rest;
    FirstMoved(cfg, "", words);
    ScanRescans(cfg, "", words, moved);
    assert out.opts + out.nonopts + out.rest == out.opts + moved;
  }

  lemma FirstMoved(cfg: Config, place: string, words: seq<string>)
    requires Usable(cfg) && (place != "" ==> words != [])
    ensures var out := Scan(cfg, place, words); out.nonopts != [] ==> IsNonOption(cfg, out.nonopts[0])
    decreases |words|, LettersLeft(place, words)
  {
    hide ElemAt;
    if place == "" && (words == [] || words[0] == "--") {
    } else if place == "" && IsNonOption(cfg, words[0]) {
      FirstMoved(cfg, "", words[1..]);
    } else {
      var loneDash := place == "" && words[0] == "-";
      var letters := if place != "" then place else if loneDash then "-" else words[0][1..];
      var e := ElemAt(cfg, letters, loneDash, words);
      ElemProgress(cfg, letters, loneDash, words);
      if e.ret != -1 {
        FirstMoved(cfg, e.place, words[e.used..]);
      }
    }
  }
}
