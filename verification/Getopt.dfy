/**
 The argument scanner of the bundled getopt, in its permuting order and for short options: one call hands out
 one option character, and non-option arguments are moved behind the options as the scan goes on.
 */
module Getopt {
  import opened Basics

  const BAD_OPTION := '\0'

  /** What one call returns: the end of the scan, an option with its argument, or a refused option character. */
  datatype Answer =
    | End
    | Found(c: char, arg: Option<string>)
    | Refused(code: char, optopt: char)

  // ---------- The option string ----------

  /** The text of the option string from the first occurrence of c on; empty when c does not occur. */
  function From(optstring: string, c: char): string {
    if optstring == [] || optstring[0] == c then optstring else From(optstring[1..], c)
  }

  method MyIndex(str: string, chr: char) returns (found: Option<string>)
    ensures found == if chr in str then Some(From(str, chr)) else None
    ensures found.Some? ==> found.value != [] && found.value[0] == chr
  {
    var s := str;
    while s != []
      invariant (chr in s <==> chr in str) && From(s, chr) == From(str, chr)
      decreases |s|
    {
      if s[0] == chr { return Some(s); }
      s := s[1..];
    }
    return None;
  }

  // ---------- The scan as a function ----------

  datatype Kind = Unknown | Plain | Optional | Required

  function KindOf(optstring: string, c: char): Kind {
    var t := From(optstring, c);
    if c == ':' || c !in optstring then Unknown
    else if |t| > 1 && t[1] == ':' then (if |t| > 2 && t[2] == ':' then Optional else Required)
    else Plain
  }

  predicate IsOption(word: string) {
    |word| > 1 && word[0] == '-'
  }

  /** What the first character of `text` yields, and how much it uses up: the number of words finished and the
      characters left in the current word. `next` holds the words behind the current one. */
  datatype Use = Use(answer: Answer, words: nat, text: string)

  function Decode(optstring: string, text: string, next: seq<string>): Use
    requires text != []
  {
    var c, more := text[0], text[1..];
    var ends := if more == [] then 1 else 0;
    match KindOf(optstring, c)
    case Unknown => Use(Refused(BAD_OPTION, c), ends, more)
    case Plain => Use(Found(c, None), ends, more)
    case Optional => Use(Found(c, if more == [] then None else Some(more)), 1, [])
    case Required =>
      if more != [] then Use(Found(c, Some(more)), 1, [])
      else if next != [] then Use(Found(c, Some(next[0])), 2, [])
      else Use(Refused(if optstring != [] && optstring[0] == ':' then ':' else BAD_OPTION, c), 1, [])
  }

  /** All answers of a scan, the words it used as options and option arguments, and the words left over. */
  datatype Parsed = Parsed(answers: seq<Answer>, options: seq<string>, operands: seq<string>)

  /** The scan of `words`, left to right, without moving anything; `text` is what is left of words[0] when the
      scan is inside a word. */
  function Parse(optstring: string, words: seq<string>, text: string): Parsed
    decreases |words|, |text| + (if text == [] && words != [] then |words[0]| + 1 else 0)
  {
    if words == [] then Parsed([], [], [])
    else if text != [] then
      var u := Decode(optstring, text, words[1..]);
      if u.words == 0 then
        var p := Parse(optstring, words, u.text);
        Parsed([u.answer] + p.answers, p.options, p.operands)
      else
        var p := Parse(optstring, words[u.words..], []);
        Parsed([u.answer] + p.answers, words[..u.words] + p.options, p.operands)
    else if words[0] == "--" then Parsed([], words[..1], words[1..])
    else if IsOption(words[0]) then Parse(optstring, words, words[0][1..])
    else
      var p := Parse(optstring, words[1..], []);
      Parsed(p.answers, p.options, words[..1] + p.operands)
  }

  lemma NotAnOption(optstring: string, words: seq<string>)
    requires words != [] && (|words[0]| == 0 || words[0][0] != '-' || |words[0]| == 1)
    ensures var p := Parse(optstring, words[1..], []);
      Parse(optstring, words, []) == Parsed(p.answers, p.options, words[..1] + p.operands)
  {
  }

  lemma EntersWord(optstring: string, words: seq<string>)
    requires words != [] && IsOption(words[0]) && words[0] != "--"
    ensures Parse(optstring, words, []) == Parse(optstring, words, words[0][1..])
  {
  }

  lemma ParseDashes(optstring: string, words: seq<string>)
    requires words != [] && words[0] == "--"
    ensures Parse(optstring, words, []) == Parsed([], words[..1], words[1..])
    ensures Parse(optstring, [], []) == Parsed([], [], [])
  {
  }

  lemma AnOption(word: string)
    requires !(|word| == 0 || word[0] != '-' || |word| == 1)
    ensures IsOption(word)
  {
  }

  /** The outcome p with some answers in front. */
  function Behind(answers: seq<Answer>, p: Parsed): Parsed {
    Parsed(answers + p.answers, p.options, p.operands)
  }

  function After(answer: Answer, p: Parsed): Parsed {
    Behind([answer], p)
  }

  lemma Decoded(optstring: string, text: string, words: seq<string>)
    requires text != [] && words != []
    ensures var u := Decode(optstring, text, words[1..]);
      var p := Parse(optstring, words[u.words..], u.text);
      Parse(optstring, words, text) == Parsed([u.answer] + p.answers, words[..u.words] + p.options, p.operands)
  {
    hide Decode;
    var u := Decode(optstring, text, words[1..]);
    DecodeEnds(optstring, text, words[1..]);
    if u.words == 0 {
      assert words[0..] == words && words[..0] == [];
    }
  }

  lemma DecodeEnds(optstring: string, text: string, next: seq<string>)
    requires text != []
    ensures var u := Decode(optstring, text, next);
      u.answer != End && (u.words > 0 ==> u.text == []) && (u.words == 0 ==> |u.text| < |text| && u.text != []) && u.words <= |next| + 1
  {
  }

  // ---------- What the function does with the words ----------

  /** Which words go to the front: one mark a word. */
  function Marks(optstring: string, words: seq<string>, text: string): (marks: seq<bool>)
    ensures |marks| == |words|
    decreases |words|, |text| + (if text == [] && words != [] then |words[0]| + 1 else 0)
  {
    if words == [] then []
    else if text != [] then
      var u := Decode(optstring, text, words[1..]);
      if u.words == 0 then Marks(optstring, words, u.text)
      else seq(u.words, _ => true) + Marks(optstring, words[u.words..], [])
    else if words[0] == "--" then [true] + seq(|words| - 1, _ => false)
    else if IsOption(words[0]) then Marks(optstring, words, words[0][1..])
    else [false] + Marks(optstring, words[1..], [])
  }

  /** The words with the given mark, in their order. */
  function Pick(words: seq<string>, marks: seq<bool>, mark: bool): seq<string>
    requires |words| == |marks|
  {
    if words == [] then []
    else (if marks[0] == mark then words[..1] else []) + Pick(words[1..], marks[1..], mark)
  }

  lemma {:induction false} PickSame(words: seq<string>, marks: seq<bool>, mark: bool)
    requires |words| == |marks| && forall i :: 0 <= i < |marks| ==> marks[i] == mark
    ensures Pick(words, marks, mark) == words && Pick(words, marks, !mark) == []
  {
    if words != [] {
      PickSame(words[1..], marks[1..], mark);
      assert words == words[..1] + words[1..];
    }
  }

  lemma {:induction false} PickSplit(words: seq<string>, marks: seq<bool>, mark: bool, k: nat)
    requires |words| == |marks| && k <= |words|
    ensures Pick(words, marks, mark) == Pick(words[..k], marks[..k], mark) + Pick(words[k..], marks[k..], mark)
  {
    if k > 0 {
      PickSplit(words[1..], marks[1..], mark, k - 1);
      assert words[..k][1..] == words[1..][..k - 1] && marks[..k][1..] == marks[1..][..k - 1];
      assert words[..k][..1] == words[..1] && words[1..][k - 1..] == words[k..] && marks[1..][k - 1..] == marks[k..];
    } else {
      assert words[..0] == [] && words[0..] == words && marks[0..] == marks;
    }
  }

  /** Options and operands are the marked and the unmarked words, each in their original order: the scan only
      permutes, and stably. */
  lemma {:induction false} ParseIsStable(optstring: string, words: seq<string>, text: string)
    ensures var p, marks := Parse(optstring, words, text), Marks(optstring, words, text);
      p.options == Pick(words, marks, true) && p.operands == Pick(words, marks, false)
    decreases |words|, |text| + (if text == [] && words != [] then |words[0]| + 1 else 0)
  {
    var marks := Marks(optstring, words, text);
    if words == [] {
    } else if text != [] {
      var u := Decode(optstring, text, words[1..]);
      if u.words == 0 {
        ParseIsStable(optstring, words, u.text);
      } else {
        ParseIsStable(optstring, words[u.words..], []);
        PickSplit(words, marks, true, u.words);
        PickSplit(words, marks, false, u.words);
        PickSame(words[..u.words], marks[..u.words], true);
        assert marks[u.words..] == Marks(optstring, words[u.words..], []);
      }
    } else if words[0] == "--" {
      assert marks[1..] == seq(|words| - 1, _ => false);
      PickSame(words[1..], marks[1..], false);
    } else if IsOption(words[0]) {
      ParseIsStable(optstring, words, words[0][1..]);
    } else {
      ParseIsStable(optstring, words[1..], []);
      assert marks[1..] == Marks(optstring, words[1..], []);
    }
  }

  lemma {:induction false} PickPermutes(words: seq<string>, marks: seq<bool>)
    requires |words| == |marks|
    ensures multiset(Pick(words, marks, true)) + multiset(Pick(words, marks, false)) == multiset(words)
  {
    if words != [] {
      PickPermutes(words[1..], marks[1..]);
      assert words == words[..1] + words[1..];
    }
  }

  lemma ParsePermutes(optstring: string, words: seq<string>, text: string)
    ensures var p := Parse(optstring, words, text); multiset(p.options) + multiset(p.operands) == multiset(words)
  {
    ParseIsStable(optstring, words, text);
    PickPermutes(words, Marks(optstring, words, text));
  }

  /** The operands: words that are no options and come before the first `--` that is read as such, then every
      word behind it. Only in front of that `--` are options taken, and it is the last of them. */
  lemma {:induction false} OperandsAre(optstring: string, words: seq<string>, text: string) returns (plain: seq<string>, behind: nat)
    ensures behind <= |words|
    ensures Parse(optstring, words, text).operands == plain + words[behind..]
    ensures forall w | w in plain :: !IsOption(w)
    ensures behind < |words| ==> behind > 0 && words[behind - 1] == "--"
    ensures behind < |words| ==>
      var p := Parse(optstring, words, text); p.options != [] && p.options[|p.options| - 1] == "--"
    decreases |words|, |text| + (if text == [] && words != [] then |words[0]| + 1 else 0)
  {
    if words == [] {
      plain, behind := [], 0;
    } else if text != [] {
      var u := Decode(optstring, text, words[1..]);
      if u.words == 0 {
        plain, behind := OperandsAre(optstring, words, u.text);
      } else {
        plain, behind := OperandsAre(optstring, words[u.words..], []);
        assert words[u.words..][behind..] == words[u.words + behind..];
        behind := u.words + behind;
      }
    } else if words[0] == "--" {
      plain, behind := [], 1;
    } else if IsOption(words[0]) {
      plain, behind := OperandsAre(optstring, words, words[0][1..]);
    } else {
      plain, behind := OperandsAre(optstring, words[1..], []);
      assert words[1..][behind..] == words[1 + behind..];
      plain, behind := words[..1] + plain, 1 + behind;
    }
  }

  // ---------- The scanner ----------

  function Reversed(s: seq<string>): (r: seq<string>)
    ensures |r| == |s|
  {
    if s == [] then [] else Reversed(s[1..]) + [s[0]]
  }

  lemma {:induction false} ReversedAt(s: seq<string>, k: nat)
    requires k < |s|
    ensures Reversed(s)[k] == s[|s| - 1 - k]
  {
    if k < |s| - 1 { ReversedAt(s[1..], k); }
  }

  lemma {:induction false} ReversedPlus(s: seq<string>, t: seq<string>)
    ensures Reversed(s + t) == Reversed(t) + Reversed(s)
  {
    if s == [] {
      assert s + t == t;
    } else {
      assert (s + t)[1..] == s[1..] + t;
      ReversedPlus(s[1..], t);
    }
  }

  lemma {:induction false} ReversedTwice(s: seq<string>)
    ensures Reversed(Reversed(s)) == s
  {
    if s != [] {
      ReversedTwice(s[1..]);
      ReversedPlus(Reversed(s[1..]), [s[0]]);
      assert Reversed([s[0]]) == [s[0]];
    }
  }

  /** s with s[lo..hi] reversed. */
  function Flipped(s: seq<string>, lo: nat, hi: nat): (r: seq<string>)
    requires lo <= hi <= |s|
    ensures |r| == |s|
  {
    s[..lo] + Reversed(s[lo..hi]) + s[hi..]
  }

  lemma FlippedIs(s: seq<string>, r: seq<string>, lo: nat, hi: nat)
    requires lo <= hi <= |s| == |r|
    requires forall k :: lo <= k < hi ==> r[k] == s[lo + hi - 1 - k]
    requires forall k :: 0 <= k < lo || hi <= k < |s| ==> r[k] == s[k]
    ensures r == Flipped(s, lo, hi)
  {
    hide Reversed;
    var part := s[lo..hi];
    forall k | 0 <= k < |part| ensures r[lo..hi][k] == Reversed(part)[k] {
      ReversedAt(part, k);
      assert r[lo + k] == s[lo + hi - 1 - (lo + k)];
    }
    assert r[lo..hi] == Reversed(part);
    assert r == r[..lo] + r[lo..hi] + r[hi..];
  }

  lemma Cut(p: seq<string>, q: seq<string>)
    ensures (p + q)[..|p|] == p && (p + q)[|p|..] == q
  {
  }

  lemma FlippedPart(p: seq<string>, s: seq<string>, q: seq<string>)
    ensures Flipped(p + s + q, |p|, |p| + |s|) == p + Reversed(s) + q
  {
    hide Reversed;
    Cut(p, s);
    Cut(p + s, q);
    var all := p + s + q;
    assert all[..|p|] == (p + s)[..|p|] && all[|p|..|p| + |s|] == (p + s)[|p|..];
  }

  /** s with s[f..l] and s[l..o] swapped. */
  function Swapped(s: seq<string>, f: nat, l: nat, o: nat): seq<string>
    requires f <= l <= o <= |s|
  {
    s[..f] + s[l..o] + s[f..l] + s[o..]
  }

  lemma SwappedParts(s: seq<string>, f: nat, l: nat, o: nat)
    requires 1 <= f <= l <= o <= |s|
    ensures var r, m := Swapped(s, f, l, o), f + (o - l);
      |r| == |s| && r[0] == s[0] && r[1..m] == s[1..f] + s[l..o] && r[m..] == s[f..l] + s[o..] && r[m..o] == s[f..l] && r[o..] == s[o..]
  {
    var p, q := s[..f] + s[l..o], s[f..l] + s[o..];
    assert Swapped(s, f, l, o) == p + q;
    Cut(p, q);
    assert p[1..] == s[1..f] + s[l..o];
  }

  lemma SwappedNothing(s: seq<string>, f: nat)
    requires f < |s|
    ensures Swapped(s, f, f, f + 1) == s
  {
  }

  /** Where the words are after passing the word s[l]. */
  lemma DashesOutcome(s: seq<string>, f: nat, l: nat, r: seq<string>)
    requires 1 <= f <= l < |s| && r == Swapped(s, f, l, l + 1)
    ensures |r| == |s| && r[1..f + 1] + [] + [] == s[1..f] + [] + s[l..][..1]
    ensures r[f + 1..] + [] == s[f..l] + s[l..][1..]
  {
    hide Swapped;
    SwappedParts(s, f, l, l + 1);
    assert s[l..][..1] == s[l..l + 1] && s[l..][1..] == s[l + 1..];
  }

  /** Reversing everything and then both parts swaps the parts. */
  lemma ThreeFlips(s: seq<string>, f: nat, l: nat, o: nat)
    requires f <= l <= o <= |s|
    ensures Flipped(Flipped(Flipped(s, f, o), f, f + (o - l)), f + (o - l), o) == Swapped(s, f, l, o)
  {
    hide Flipped, Reversed;
    var p, a, b, q := s[..f], s[f..l], s[l..o], s[o..];
    assert s == p + (a + b) + q;
    FlippedPart(p, a + b, q);
    ReversedPlus(a, b);
    var ra, rb := Reversed(a), Reversed(b);
    assert p + (rb + ra) + q == p + rb + (ra + q);
    FlippedPart(p, rb, ra + q);
    ReversedTwice(b);
    assert p + b + (ra + q) == (p + b) + ra + q;
    FlippedPart(p + b, ra, q);
    ReversedTwice(a);
  }

  class Scanner {
    const argv: array<string>
    const optstring: string
    var optind: nat
    /** The characters of argv[optind] still to be looked at. */
    var nextchar: string
    var firstNonopt: nat
    var lastNonopt: nat

    ghost predicate Valid()
      reads this
    {
      && 1 <= firstNonopt <= lastNonopt <= optind <= argv.Length
      && (nextchar != [] ==> optind < argv.Length)
    }

    /** What the scan has come to and will come to: answers still to be given, all options, all operands. */
    ghost function Outcome(): Parsed
      requires Valid()
      reads this, argv
    {
      var p := Parse(optstring, argv[optind..], nextchar);
      Parsed(p.answers, argv[1..firstNonopt] + argv[lastNonopt..optind] + p.options, argv[firstNonopt..lastNonopt] + p.operands)
    }

    /** The state that the first call sets up; an option string that asks for another order is not handled here. */
    constructor (argv: array<string>, optstring: string)
      requires argv.Length >= 1 && (optstring != [] ==> optstring[0] != '-' && optstring[0] != '+')
      ensures Valid() && this.argv == argv && this.optstring == optstring
      ensures Outcome() == Parse(optstring, argv[1..], [])
    {
      this.argv, this.optstring := argv, optstring;
      firstNonopt, lastNonopt, optind := 1, 1, 1;
      nextchar := [];
    }

    /** Reverse argv[lo..hi] in place. */
    method Reverse(lo: nat, hi: nat)
      requires lo <= hi <= argv.Length
      modifies argv
      ensures argv[..] == Flipped(old(argv[..]), lo, hi)
    {
      hide Flipped;
      var first, last := lo, hi - 1;
      while first < last
        invariant lo <= first <= last + 2 && first + last == lo + hi - 1
        invariant forall k :: lo <= k < first || last < k < hi ==> argv[k] == old(argv[lo + hi - 1 - k])
        invariant forall k :: 0 <= k < argv.Length && (first <= k <= last || k < lo || hi <= k) ==> argv[k] == old(argv[k])
      {
        argv[first], argv[last] := argv[last], argv[first];
        first, last := first + 1, last - 1;
      }
      FlippedIs(old(argv[..]), argv[..], lo, hi);
    }

    /** Swap the skipped non-options with the options behind them, by three reversals; both keep their order. */
    method Exchange()
      requires Valid()
      modifies argv, `firstNonopt, `lastNonopt
      ensures Valid() && firstNonopt == old(firstNonopt) + (optind - old(lastNonopt)) && lastNonopt == optind
      ensures argv[..] == Swapped(old(argv[..]), old(firstNonopt), old(lastNonopt), optind)
    {
      hide Flipped, Swapped;
      Reverse(firstNonopt, optind);
      var first := firstNonopt;
      firstNonopt := firstNonopt + (optind - lastNonopt);
      Reverse(first, firstNonopt);
      lastNonopt := optind;
      Reverse(firstNonopt, lastNonopt);
      ThreeFlips(old(argv[..]), old(firstNonopt), old(lastNonopt), optind);
    }

    /** Move the options since the last non-options in front of these. */
    method Settle()
      requires Valid() && nextchar == []
      modifies this, argv
      ensures Valid() && nextchar == [] && optind == old(optind) && argv[0] == old(argv[0])
      ensures lastNonopt == optind && Outcome() == old(Outcome())
    {
      hide Swapped, Parse;
      if firstNonopt != lastNonopt && lastNonopt != optind {
        ghost var s, f, l := argv[..], firstNonopt, lastNonopt;
        Exchange();
        SwappedParts(s, f, l, optind);
        assert argv[1..firstNonopt] == s[1..f] + s[l..optind];
        assert argv[firstNonopt..lastNonopt] == s[f..l];
        assert argv[optind..] == s[optind..];
        assert argv[lastNonopt..optind] == [];
      } else if lastNonopt != optind {
        firstNonopt := optind;
        lastNonopt := optind;
        assert argv[1..firstNonopt] + argv[lastNonopt..optind] == old(argv[1..firstNonopt] + argv[lastNonopt..optind]);
        assert argv[firstNonopt..lastNonopt] == old(argv[firstNonopt..lastNonopt]);
      }
    }

    /** Skip non-options, extending the range of those skipped before. */
    method SkipNonoptions()
      requires Valid() && nextchar == [] && lastNonopt == optind
      modifies `optind, `lastNonopt
      ensures Valid() && lastNonopt == optind && Outcome() == old(Outcome())
      ensures optind < argv.Length ==> IsOption(argv[optind])
    {
      hide Decode, IsOption, Parse;
      ghost var was := Outcome();
      while optind < argv.Length && (|argv[optind]| == 0 || argv[optind][0] != '-' || |argv[optind]| == 1)
        invariant firstNonopt <= lastNonopt <= optind <= argv.Length
        invariant lastNonopt == old(lastNonopt)
        invariant var p := Parse(optstring, argv[optind..], []);
          was == Parsed(p.answers, argv[1..firstNonopt] + p.options, argv[firstNonopt..optind] + p.operands)
      {
        NotAnOption(optstring, argv[optind..]);
        assert argv[optind..][1..] == argv[optind + 1..];
        assert argv[firstNonopt..optind] + argv[optind..][..1] == argv[firstNonopt..optind + 1];
        optind := optind + 1;
      }
      lastNonopt := optind;
      assert argv[1..firstNonopt] + argv[lastNonopt..optind] == argv[1..firstNonopt];
      if optind < argv.Length { AnOption(argv[optind]); }
    }

    /** Pass the word `--` as if it were an option, and everything behind it as non-options. */
    method PassDashes()
      requires Valid() && nextchar == [] && lastNonopt == optind < argv.Length && argv[optind] == "--"
      modifies this, argv
      ensures Valid() && nextchar == [] && optind == lastNonopt == argv.Length && argv[0] == old(argv[0])
      ensures Outcome() == old(Outcome())
    {
      hide Parse, Swapped;
      ghost var s, f, l := argv[..], firstNonopt, lastNonopt;
      ParseDashes(optstring, s[l..]);
      SwappedParts(s, f, l, l + 1);
      optind := optind + 1;
      if firstNonopt != lastNonopt {
        Exchange();
      } else {
        SwappedNothing(s, f);
        firstNonopt := optind;
      }
      lastNonopt := argv.Length;
      optind := argv.Length;
      DashesOutcome(s, f, l, argv[..]);
      assert argv[optind..] == [] && argv[1..firstNonopt] == argv[..][1..f + 1] && argv[firstNonopt..lastNonopt] == argv[..][f + 1..];
      assert old(argv[optind..]) == s[l..] && old(argv[lastNonopt..optind]) == [];
    }

    /** Handle the next character of the current word. */
    method TakeCharacter() returns (answer: Answer)
      requires optind < argv.Length && nextchar != []
      modifies `optind, `nextchar
      ensures var u := Decode(optstring, old(nextchar), argv[old(optind) + 1..]);
        answer == u.answer && optind == old(optind) + u.words && nextchar == u.text
    {
      hide From;
      assert optind + 1 < argv.Length ==> argv[optind + 1..][0] == argv[optind + 1];
      var c := nextchar[0];
      nextchar := nextchar[1..];
      var temp := MyIndex(optstring, c);
      if nextchar == [] { optind := optind + 1; }
      if temp == None || c == ':' {
        answer := Refused(BAD_OPTION, c);
      } else if |temp.value| > 1 && temp.value[1] == ':' {
        if |temp.value| > 2 && temp.value[2] == ':' {
          if nextchar != [] {
            answer := Found(c, Some(nextchar));
            optind := optind + 1;
          } else {
            answer := Found(c, None);
          }
        } else if nextchar != [] {
          answer := Found(c, Some(nextchar));
          optind := optind + 1;
        } else if optind == argv.Length {
          answer := Refused(if optstring != [] && optstring[0] == ':' then ':' else BAD_OPTION, c);
        } else {
          answer := Found(c, Some(argv[optind]));
          optind := optind + 1;
        }
        nextchar := [];
      } else {
        answer := Found(c, None);
      }
    }

    method NextCharacter() returns (answer: Answer)
      requires Valid() && nextchar != []
      modifies `optind, `nextchar
      ensures Valid() && answer != End && old(Outcome()) == After(answer, Outcome())
    {
      hide Parse, Decode;
      ghost var text, words, o := nextchar, argv[optind..], optind;
      assert words[1..] == argv[optind + 1..];
      answer := TakeCharacter();
      ghost var u := Decode(optstring, text, words[1..]);
      DecodeEnds(optstring, text, words[1..]);
      Decoded(optstring, text, words);
      assert words[u.words..] == argv[optind..];
      assert argv[lastNonopt..o] + words[..u.words] == argv[lastNonopt..optind];
    }

    /** Every word is passed: go back to the operands. */
    method Finish()
      requires Valid() && optind == lastNonopt == argv.Length
      modifies `optind
      ensures 1 <= optind <= argv.Length && old(Outcome()) == Parsed([], argv[1..optind], argv[optind..])
    {
      assert Parse(optstring, argv[optind..], nextchar) == Parsed([], [], []);
      assert argv[1..firstNonopt] + argv[lastNonopt..optind] == argv[1..firstNonopt];
      if firstNonopt != lastNonopt {
        optind := firstNonopt;
      }
      assert argv[optind..] == argv[firstNonopt..lastNonopt];
    }

    /** One call of getopt: it hands out the next answer of the scan and keeps the rest of the outcome. At the
        end the options stand in front and optind points to the operands. */
    method Next() returns (answer: Answer)
      requires Valid()
      modifies this, argv
      ensures argv[0] == old(argv[0])
      ensures answer != End ==> Valid() && old(Outcome()) == After(answer, Outcome())
      ensures answer == End ==> 1 <= optind <= argv.Length && old(Outcome()) == Parsed([], argv[1..optind], argv[optind..])
    {
      hide Parse;
      if nextchar == [] {
        Settle();
        SkipNonoptions();
        if optind != argv.Length && argv[optind] == "--" {
          PassDashes();
        }
        if optind == argv.Length {
          Finish();
          return End;
        }
        EntersWord(optstring, argv[optind..]);
        nextchar := argv[optind][1..];
      }
      answer := NextCharacter();
    }

    /** The caller's loop: call until the end. */
    method ScanAll() returns (answers: seq<Answer>)
      requires Valid()
      modifies this, argv
      ensures argv[0] == old(argv[0])
      ensures 1 <= optind <= argv.Length && old(Outcome()) == Parsed(answers, argv[1..optind], argv[optind..])
    {
      hide Parse;
      answers := [];
      ghost var was := Outcome();
      var answer := Next();
      while answer != End
        invariant argv[0] == old(argv[0])
        invariant answer != End ==> Valid() && was == Behind(answers + [answer], Outcome())
        invariant answer == End ==> 1 <= optind <= argv.Length && was == Parsed(answers, argv[1..optind], argv[optind..])
        decreases answer != End, if answer != End then |Outcome().answers| else 0
      {
        answers := answers + [answer];
        ghost var here := Outcome();
        answer := Next();
        if answer != End {
          assert answers + ([answer] + Outcome().answers) == answers + [answer] + Outcome().answers;
        }
      }
    }
  }

  /** The whole scan of an argument vector: the in-place scanner gives the answers of the left-to-right scan,
      and leaves its options, then its operands, behind the program name. */
  method Scan(argv: array<string>, optstring: string) returns (answers: seq<Answer>, optind: nat)
    requires argv.Length >= 1 && (optstring != [] ==> optstring[0] != '-' && optstring[0] != '+')
    modifies argv
    ensures var p := Parse(optstring, old(argv[1..]), []);
      answers == p.answers && optind == 1 + |p.options| && argv[..] == old(argv[..1]) + p.options + p.operands
  {
    hide Parse;
    var scanner := new Scanner(argv, optstring);
    answers := scanner.ScanAll();
    optind := scanner.optind;
    assert argv[..] == argv[..1] + argv[1..optind] + argv[optind..];
  }
}
