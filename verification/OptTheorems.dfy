/** What the reference scan guarantees: the rearrangement is a stable partition, and rearranging
    loses nothing for a scanner that stops at the first non-option. */
module OptTheorems {
  import opened OptSpec

  // The words at which keep holds the wanted value, in order.
  function Pick(words: seq<string>, keep: seq<bool>, want: bool): seq<string>
    requires |words| == |keep|
  {
    if words == [] then []
    else (if keep[0] == want then [words[0]] else []) + Pick(words[1..], keep[1..], want)
  }

  lemma {:induction false} PickPrefix(front: seq<string>, words: seq<string>, keep: seq<bool>, kept: bool, want: bool)
    requires |words| == |keep|
    ensures Pick(front + words, seq(|front|, _ => kept) + keep, want)
      == (if kept == want then front else []) + Pick(words, keep, want)
    decreases |front|
  {
    var mark: seq<bool> := seq(|front|, _ => kept);
    if front == [] {
      assert front + words == words && mark + keep == keep;
    } else {
      var mark': seq<bool> := seq(|front| - 1, _ => kept);
      PickPrefix(front[1..], words, keep, kept, want);
      assert (front + words)[1..] == front[1..] + words;
      assert (mark + keep)[1..] == mark' + keep;
      if kept == want {
        assert front + Pick(words, keep, want) == [front[0]] + (front[1..] + Pick(words, keep, want));
      }
    }
  }

  lemma {:induction false} PickIsPermutation(words: seq<string>, keep: seq<bool>)
    requires |words| == |keep|
    ensures multiset(Pick(words, keep, true) + Pick(words, keep, false)) == multiset(words)
  {
    if words != [] {
      var yes, no := Pick(words[1..], keep[1..], true), Pick(words[1..], keep[1..], false);
      PickIsPermutation(words[1..], keep[1..]);
      assert words == [words[0]] + words[1..];
      assert multiset(yes) + multiset(no) == multiset(words[1..]);
      assert Pick(words, keep, true) == (if keep[0] then [words[0]] else []) + yes;
      assert Pick(words, keep, false) == (if keep[0] then [] else [words[0]]) + no;
    }
  }

  /** The words looked at are a prefix of the input, and a mark on each splits it into options and
      non-options, each in input order; only non-option words are passed over. */
  ghost predicate IsStablePartition(cfg: Config, words: seq<string>, out: Outcome, keep: seq<bool>) {
    && |keep| <= |words|
    && out.rest == words[|keep|..]
    && out.opts == Pick(words[..|keep|], keep, true)
    && out.nonopts == Pick(words[..|keep|], keep, false)
    && (forall i :: 0 <= i < |keep| && !keep[i] ==> cfg.mode == Permute && IsNonOption(cfg, words[i]))
  }

  lemma MarkPrefix(cfg: Config, words: seq<string>, k: nat, kept: bool, out: Outcome, keep: seq<bool>, r: seq<Result>)
      returns (mark: seq<bool>)
    requires k <= |words| && IsStablePartition(cfg, words[k..], out, keep)
    requires !kept ==> cfg.mode == Permute && forall i :: 0 <= i < k ==> IsNonOption(cfg, words[i])
    ensures mark == seq(k, _ => kept) + keep
    ensures IsStablePartition(cfg, words,
      Prepend(r, if kept then words[..k] else [], if kept then [] else words[..k], out), mark)
  {
    mark := seq(k, _ => kept) + keep;
    assert words[..|mark|] == words[..k] + words[k..][..|keep|];
    PickPrefix(words[..k], words[k..][..|keep|], keep, kept, true);
    PickPrefix(words[..k], words[k..][..|keep|], keep, kept, false);
    assert words[|mark|..] == words[k..][|keep|..];
    forall i | 0 <= i < |mark| && !mark[i] ensures cfg.mode == Permute && IsNonOption(cfg, words[i]) {
      if i >= k {
        assert words[i] == words[k..][i - k] && !keep[i - k];
      }
    }
  }

  lemma {:induction false} ScanPartitions(cfg: Config, place: string, words: seq<string>) returns (keep: seq<bool>)
    requires Usable(cfg) && (place != "" ==> words != [])
    ensures IsStablePartition(cfg, words, Scan(cfg, place, words), keep)
    decreases |words|, LettersLeft(place, words)
  {
    hide Pick, ElemAt;
    if place == "" && (words == [] || (IsNonOption(cfg, words[0]) && cfg.mode == StopAtFirst)) {
      keep := [];
      PickNothing();
      assert words[..0] == [];
    } else if place == "" && IsNonOption(cfg, words[0]) {
      keep := ScanPartitions(cfg, "", words[1..]);
      assert words[..1] == [words[0]];
      keep := MarkPrefix(cfg, words, 1, cfg.mode == InOrder, Scan(cfg, "", words[1..]), keep,
                         if cfg.mode == InOrder then [InOrderResult(words[0])] else []);
    } else if place == "" && words[0] == "--" {
      PickNothing();
      var none := Outcome([], [], [], words[1..], false);
      assert words[1..][..0] == [];
      assert IsStablePartition(cfg, words[1..], none, []);
      assert words[..1] == ["--"];
      keep := MarkPrefix(cfg, words, 1, true, none, [], []);
    } else {
      var loneDash := place == "" && words[0] == "-";
      var letters := if place != "" then place else if loneDash then "-" else words[0][1..];
      var e := ElemAt(cfg, letters, loneDash, words);
      ElemProgress(cfg, letters, loneDash, words);
      if e.ret == -1 {
        keep := [];
        PickNothing();
        assert words[..0] == [];
      } else {
        keep := ScanPartitions(cfg, e.place, words[e.used..]);
        keep := MarkPrefix(cfg, words, e.used, true, Scan(cfg, e.place, words[e.used..]), keep, [Seen(e)]);
      }
    }
  }

  lemma PickNothing()
    ensures Pick([], [], true) == [] == Pick([], [], false)
  {
  }

  /** The rearranged words are a permutation of the words, for every option string and table. */
  lemma ScanPermutes(cfg: Config, words: seq<string>)
    requires Usable(cfg)
    ensures var out := Scan(cfg, "", words);
      multiset(out.opts + out.nonopts + out.rest) == multiset(words)
  {
    hide Scan, ScanElem, Pick;
    var keep := ScanPartitions(cfg, "", words);
    PickThenRest(words, keep);
  }

  lemma PickThenRest(words: seq<string>, keep: seq<bool>)
    requires |keep| <= |words|
    ensures var read := words[..|keep|];
      multiset(Pick(read, keep, true) + Pick(read, keep, false) + words[|keep|..]) == multiset(words)
  {
    hide Pick;
    PickIsPermutation(words[..|keep|], keep);
    assert words == words[..|keep|] + words[|keep|..];
  }

  /** Words are left unread only behind a "--", itself the last option word; or, when the mode is to
      stop, from a non-option on. */
  lemma {:induction false} ScanReadsUpTo(cfg: Config, place: string, words: seq<string>)
    requires Usable(cfg) && (place != "" ==> words != [])
    ensures var out := Scan(cfg, place, words);
      !out.stuck && out.rest != [] ==>
        (out.opts != [] && out.opts[|out.opts| - 1] == "--") || (cfg.mode == StopAtFirst && IsNonOption(cfg, out.rest[0]))
    decreases |words|, LettersLeft(place, words)
  {
    hide ElemAt;
    if place == "" && (words == [] || words[0] == "--" || (IsNonOption(cfg, words[0]) && cfg.mode == StopAtFirst)) {
    } else if place == "" && IsNonOption(cfg, words[0]) {
      ScanReadsUpTo(cfg, "", words[1..]);
    } else {
      var loneDash := place == "" && words[0] == "-";
      var letters := if place != "" then place else if loneDash then "-" else words[0][1..];
      var e := ElemAt(cfg, letters, loneDash, words);
      ElemProgress(cfg, letters, loneDash, words);
      if e.ret != -1 {
        ScanReadsUpTo(cfg, e.place, words[e.used..]);
      }
    }
  }

  /** A scan can only stick (return -1 early, words not moved) when no long-option table is given
      and '-' is not an option letter ... */
  lemma {:induction false} NeverStuck(cfg: Config, place: string, words: seq<string>)
    requires Usable(cfg) && (place != "" ==> words != [])
    requires cfg.longs.Some? || '-' in cfg.options
    ensures !Scan(cfg, place, words).stuck
    decreases |words|, LettersLeft(place, words)
  {
    hide LongElem, ShortElem;
    if place == "" && words != [] && IsNonOption(cfg, words[0]) {
      NeverStuck(cfg, "", words[1..]);
    } else if place != "" || (words != [] && words[0] != "--") {
      var loneDash := place == "" && words[0] == "-";
      var letters := if place != "" then place else if loneDash then "-" else words[0][1..];
      var e := ElemAt(cfg, letters, loneDash, words);
      ElemProgress(cfg, letters, loneDash, words);
      if TriesLong(cfg, letters, loneDash) {
        LongProgress(cfg, LongText(letters), words, ShortToo(cfg, letters));
      }
      ShortProgress(cfg, letters, words);
      NeverStuck(cfg, e.place, words[e.used..]);
    }
  }

  // The word a scan sticks at: it ends in '-' behind at least one letter.
  predicate DashEnded(word: string) {
    |word| >= 3 && word[0] == '-' && word[|word| - 1] == '-'
  }

  // place is what is left of the letters of an option word other than "--" and "-".
  predicate WithinWord(place: string, word: string) {
    && 0 < |place| < |word| && word[0] == '-' && word[|word| - |place|..] == place
    && (place == "-" ==> |word| >= 3)
  }

  // Handling an option leaves nothing of the letters, or all but the first.
  lemma PlaceShrinks(cfg: Config, place: string, loneDash: bool, words: seq<string>)
    requires place != "" && words != [] && Usable(cfg)
    ensures var e := ElemAt(cfg, place, loneDash, words);
      && (e.place != "" ==> e.place == place[1..] && e.used == 0)
      && (e.ret == -1 ==> place == "-" && '-' !in cfg.options)
  {
    hide LongElem;
    ElemProgress(cfg, place, loneDash, words);
    if TriesLong(cfg, place, loneDash) {
      LongProgress(cfg, LongText(place), words, ShortToo(cfg, place));
    }
    ShortProgress(cfg, place, words);
    if cfg.longs.Some? {
      if |place| > 1 {
        LongProgress(cfg, place[1..], words, false);
      } else if |words| > 1 {
        LongProgress(cfg, words[1], words[1..], false);
      }
    }
  }

  /** A scan that sticks does so at a word that ends in '-' behind at least one letter: the first word not
      counted as read. */
  lemma {:induction false} StuckAt(cfg: Config, place: string, words: seq<string>)
    requires Usable(cfg) && (place != "" ==> words != [] && WithinWord(place, words[0]))
    requires Scan(cfg, place, words).stuck
    ensures Scan(cfg, place, words).rest != [] && DashEnded(Scan(cfg, place, words).rest[0])
    decreases |words|, LettersLeft(place, words)
  {
    hide ElemAt;
    if place == "" && IsNonOption(cfg, words[0]) {
      StuckAt(cfg, "", words[1..]);
    } else {
      var loneDash := place == "" && words[0] == "-";
      var letters := if place != "" then place else if loneDash then "-" else words[0][1..];
      var e := ElemAt(cfg, letters, loneDash, words);
      ElemProgress(cfg, letters, loneDash, words);
      PlaceShrinks(cfg, letters, loneDash, words);
      if e.ret != -1 {
        assert words[0..] == words;
        StuckAt(cfg, e.place, words[e.used..]);
      }
    }
  }

  /** ... and then some word does make it stick. */
  lemma StuckIff(cfg: Config)
    requires Usable(cfg)
    ensures (forall words :: !Scan(cfg, "", words).stuck) <==> cfg.longs.Some? || '-' in cfg.options
  {
    if cfg.longs.Some? || '-' in cfg.options {
      forall words ensures !Scan(cfg, "", words).stuck {
        NeverStuck(cfg, "", words);
      }
    } else {
      var words := ["-:-"];
      assert words[0..] == words;
      assert Scan(cfg, "", words) == ScanElem(cfg, ":-", false, words);
      assert ElemAt(cfg, ":-", false, words) == Complaint(BADCH, ':' as int, "-", 0);
      assert Scan(cfg, "-", words) == ScanElem(cfg, "-", false, words);
      assert Scan(cfg, "", words).stuck;
    }
  }
}
