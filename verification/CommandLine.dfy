/**
 What a command line says, independently of how it is scanned: option letters, their arguments and other words,
 and how these are spelled as an argument vector. The scanner reads back exactly what was spelled, and every
 argument vector is spelled by something.
 */
module CommandLine {
  import opened Basics
  import opened Getopt

  // ---------- The option string, by position ----------

  ghost predicate FirstAt(optstring: string, c: char, i: nat) {
    i < |optstring| && optstring[i] == c && c !in optstring[..i]
  }

  predicate Colon(optstring: string, i: nat) {
    i < |optstring| && optstring[i] == ':'
  }

  /** The letter is listed, with n colons behind its first occurrence (two of however many there are). */
  ghost predicate Listed(optstring: string, c: char, n: nat) {
    c != ':' && exists i: nat :: FirstAt(optstring, c, i) && n == Colons(optstring, i + 1)
  }

  function Colons(optstring: string, i: nat): nat {
    if !Colon(optstring, i) then 0 else if !Colon(optstring, i + 1) then 1 else 2
  }

  predicate Unlisted(optstring: string, c: char) {
    c == ':' || c !in optstring
  }

  // ---------- What is said, and how it is spelled ----------

  /** How a word with options ends: with one of its letters; with a letter whose argument is optional and not there;
      with an argument in the same word; with one in the next word; or with a letter whose argument is missing. */
  datatype Tail = NoTail | Bare(c: char) | Joined(c: char, arg: string) | Apart(c: char, arg: string) | Lacking(c: char)

  datatype Piece = Operand(word: string) | Options(letters: string, tail: Tail)

  function TailText(t: Tail): string {
    match t
    case NoTail => []
    case Bare(c) => [c]
    case Joined(c, arg) => [c] + arg
    case Apart(c, _) => [c]
    case Lacking(c) => [c]
  }

  function Spelled(p: Piece): seq<string> {
    match p
    case Operand(word) => [word]
    case Options(letters, tail) => ["-" + (letters + TailText(tail))] + if tail.Apart? then [tail.arg] else []
  }

  ghost predicate LegalTail(optstring: string, t: Tail) {
    match t
    case NoTail => true
    case Bare(c) => Listed(optstring, c, 2)
    case Joined(c, arg) => arg != [] && (Listed(optstring, c, 1) || Listed(optstring, c, 2))
    case Apart(c, _) => Listed(optstring, c, 1)
    case Lacking(c) => Listed(optstring, c, 1)
  }

  /** Letters are options without argument, or unknown; the word is neither `-` nor `--`. */
  ghost predicate Legal(optstring: string, p: Piece) {
    match p
    case Operand(word) => |word| < 2 || word[0] != '-'
    case Options(letters, tail) =>
      && (forall i :: 0 <= i < |letters| ==> Listed(optstring, letters[i], 0) || Unlisted(optstring, letters[i]))
      && LegalTail(optstring, tail) && letters + TailText(tail) != [] && letters + TailText(tail) != "-"
  }

  function LetterAnswer(optstring: string, c: char): Answer {
    if Unlisted(optstring, c) then Refused('\0', c) else Found(c, None)
  }

  function LetterAnswers(optstring: string, letters: string): seq<Answer> {
    if letters == [] then [] else [LetterAnswer(optstring, letters[0])] + LetterAnswers(optstring, letters[1..])
  }

  function TailAnswers(optstring: string, t: Tail): seq<Answer> {
    match t
    case NoTail => []
    case Bare(c) => [Found(c, None)]
    case Joined(c, arg) => [Found(c, Some(arg))]
    case Apart(c, arg) => [Found(c, Some(arg))]
    case Lacking(c) => [Refused(if Colon(optstring, 0) then ':' else '\0', c)]
  }

  function PieceAnswers(optstring: string, p: Piece): seq<Answer> {
    match p
    case Operand(_) => []
    case Options(letters, tail) => LetterAnswers(optstring, letters) + TailAnswers(optstring, tail)
  }

  /** A command line: its pieces, and the words behind `--` if there is one. */
  datatype Line = Line(pieces: seq<Piece>, behind: Option<seq<string>>)

  function Words(l: Line): seq<string>
    decreases |l.pieces|
  {
    if l.pieces == [] then (if l.behind.None? then [] else ["--"] + l.behind.value)
    else Spelled(l.pieces[0]) + Words(Line(l.pieces[1..], l.behind))
  }

  /** An argument can only be missing at the very end. */
  ghost predicate LegalLine(optstring: string, l: Line) {
    && (forall i :: 0 <= i < |l.pieces| ==> Legal(optstring, l.pieces[i]))
    && (forall i :: 0 <= i < |l.pieces| && l.pieces[i].Options? && l.pieces[i].tail.Lacking? ==> i == |l.pieces| - 1 && l.behind.None?)
  }

  function Said(optstring: string, l: Line): seq<Answer>
    decreases |l.pieces|
  {
    if l.pieces == [] then [] else PieceAnswers(optstring, l.pieces[0]) + Said(optstring, Line(l.pieces[1..], l.behind))
  }

  function OptionWords(l: Line): seq<string>
    decreases |l.pieces|
  {
    if l.pieces == [] then (if l.behind.None? then [] else ["--"])
    else (if l.pieces[0].Operand? then [] else Spelled(l.pieces[0])) + OptionWords(Line(l.pieces[1..], l.behind))
  }

  function OperandWords(l: Line): seq<string>
    decreases |l.pieces|
  {
    if l.pieces == [] then (if l.behind.None? then [] else l.behind.value)
    else (if l.pieces[0].Operand? then [l.pieces[0].word] else []) + OperandWords(Line(l.pieces[1..], l.behind))
  }

  // ---------- Reading it back ----------

  lemma {:induction false} FromFirst(optstring: string, c: char, i: nat)
    requires FirstAt(optstring, c, i)
    ensures From(optstring, c) == optstring[i..] && c in optstring
  {
    if i > 0 {
      assert optstring[0] == optstring[..i][0];
      assert optstring[1..][..i - 1] == optstring[..i][1..];
      FromFirst(optstring[1..], c, i - 1);
      assert optstring[1..][i - 1..] == optstring[i..];
    }
  }

  lemma ListedKind(optstring: string, c: char, n: nat)
    requires Listed(optstring, c, n)
    ensures KindOf(optstring, c) == if n == 0 then Plain else if n == 1 then Required else Optional
    ensures !Unlisted(optstring, c)
  {
    hide From;
    var i: nat :| FirstAt(optstring, c, i) && n == Colons(optstring, i + 1);
    FromFirst(optstring, c, i);
  }

  /** A scan of words that goes on after n of them, with an answer in front. */
  function Then(optstring: string, answer: Answer, words: seq<string>, n: nat): Parsed
    requires n <= |words|
  {
    var p := Parse(optstring, words[n..], []);
    Parsed([answer] + p.answers, words[..n] + p.options, p.operands)
  }

  lemma ReadLetter(optstring: string, words: seq<string>, c: char, more: string)
    requires words != [] && (Listed(optstring, c, 0) || Unlisted(optstring, c))
    ensures Parse(optstring, words, [c] + more) ==
      if more == [] then Then(optstring, LetterAnswer(optstring, c), words, 1)
      else Behind([LetterAnswer(optstring, c)], Parse(optstring, words, more))
  {
    hide Listed, Parse, KindOf;
    if Listed(optstring, c, 0) { ListedKind(optstring, c, 0); } else { UnlistedKind(optstring, c); }
    var text := [c] + more;
    assert text[1..] == more;
    Decoded(optstring, text, words);
    if more != [] { assert words[0..] == words && words[..0] == []; }
  }

  lemma UnlistedKind(optstring: string, c: char)
    requires Unlisted(optstring, c)
    ensures KindOf(optstring, c) == Unknown
  {
  }

  lemma {:induction false} ReadLetters(optstring: string, words: seq<string>, letters: string, more: string)
    requires words != [] && letters + more != []
    requires forall i :: 0 <= i < |letters| ==> Listed(optstring, letters[i], 0) || Unlisted(optstring, letters[i])
    ensures Parse(optstring, words, letters + more) ==
      if more != [] then Behind(LetterAnswers(optstring, letters), Parse(optstring, words, more))
      else Behind(LetterAnswers(optstring, letters), var p := Parse(optstring, words[1..], []); Parsed(p.answers, words[..1] + p.options, p.operands))
  {
    hide Listed, Parse;
    if letters == [] {
      assert letters + more == more;
    } else {
      var c, rest := letters[0], letters[1..];
      assert letters + more == [c] + (rest + more);
      ReadLetter(optstring, words, c, rest + more);
      if rest + more != [] {
        ReadLetters(optstring, words, rest, more);
      }
    }
  }

  lemma ReadTail(optstring: string, words: seq<string>, t: Tail)
    requires words != [] && t != NoTail && LegalTail(optstring, t)
    requires t.Apart? ==> |words| > 1 && words[1] == t.arg
    requires t.Lacking? ==> |words| == 1
    ensures Parse(optstring, words, TailText(t)) ==
      var p, n := Parse(optstring, words[if t.Apart? then 2 else 1..], []), if t.Apart? then 2 else 1;
      Parsed(TailAnswers(optstring, t) + p.answers, words[..n] + p.options, p.operands)
  {
    hide Listed, Parse, KindOf;
    var c, text := t.c, TailText(t);
    if t.Bare? || (t.Joined? && !Listed(optstring, c, 1)) { ListedKind(optstring, c, 2); } else { ListedKind(optstring, c, 1); }
    assert text != [] && text[0] == c && text[1..] == if t.Joined? then t.arg else [];
    Decoded(optstring, text, words);
  }

  /** One piece in front of other words. */
  lemma ReadPiece(optstring: string, p: Piece, rest: seq<string>)
    requires Legal(optstring, p) && (p.Options? && p.tail.Lacking? ==> rest == [])
    ensures var r := Parse(optstring, rest, []);
      Parse(optstring, Spelled(p) + rest, []) ==
        Parsed(PieceAnswers(optstring, p) + r.answers, (if p.Operand? then [] else Spelled(p)) + r.options, (if p.Operand? then [p.word] else []) + r.operands)
  {
    hide Listed, Parse, LetterAnswers;
    var words, r := Spelled(p) + rest, Parse(optstring, rest, []);
    match p
    case Operand(word) =>
      assert words[1..] == rest && words[..1] == [word];
      NotAnOption(optstring, words);
    case Options(letters, tail) =>
      var text := letters + TailText(tail);
      assert words[0] == "-" + text && words[0][1..] == text;
      EntersWord(optstring, words);
      ReadLetters(optstring, words, letters, TailText(tail));
      if tail.NoTail? {
        assert words[1..] == rest && words[..1] == Spelled(p);
      } else {
        ReadTail(optstring, words, tail);
        var n := if tail.Apart? then 2 else 1;
        assert words[n..] == rest && words[..n] == Spelled(p);
      }
  }

  /** What was spelled is read back: the answers say it, in order, and the other words are the operands, in order. */
  lemma {:induction false} ReadBack(optstring: string, l: Line)
    requires LegalLine(optstring, l)
    ensures Parse(optstring, Words(l), []) == Parsed(Said(optstring, l), OptionWords(l), OperandWords(l))
    decreases |l.pieces|
  {
    hide Legal, PieceAnswers;
    if l.pieces == [] {
      if l.behind.Some? {
        var words := Words(l);
        assert words[..1] == ["--"] && words[1..] == l.behind.value;
        ParseDashes(optstring, words);
      }
    } else {
      hide Parse, Spelled;
      var p, rest := l.pieces[0], Line(l.pieces[1..], l.behind);
      ReadBack(optstring, rest);
      assert p.Options? && p.tail.Lacking? ==> Words(rest) == [];
      ReadPiece(optstring, p, Words(rest));
    }
  }

  // ---------- Everything is spelled by something ----------

  lemma {:induction false} FirstExists(optstring: string, c: char) returns (i: nat)
    requires c in optstring
    ensures FirstAt(optstring, c, i)
  {
    if optstring[0] == c {
      i := 0;
    } else {
      i := FirstExists(optstring[1..], c);
      assert optstring[..i + 1] == [optstring[0]] + optstring[1..][..i];
      i := i + 1;
    }
  }

  /** A letter is unknown, or listed with none, one or two colons. */
  lemma LetterKinds(optstring: string, c: char)
    ensures Unlisted(optstring, c) || Listed(optstring, c, 0) || Listed(optstring, c, 1) || Listed(optstring, c, 2)
  {
    if !Unlisted(optstring, c) {
      var i := FirstExists(optstring, c);
      assert Listed(optstring, c, Colons(optstring, i + 1));
    }
  }

  /** The text of a word, and the words behind it, as letters and a tail. */
  lemma {:induction false} SpellText(optstring: string, text: string, next: seq<string>) returns (letters: string, tail: Tail)
    requires text != []
    ensures letters + TailText(tail) == text && LegalTail(optstring, tail)
    ensures forall i :: 0 <= i < |letters| ==> Listed(optstring, letters[i], 0) || Unlisted(optstring, letters[i])
    ensures (tail.Apart? ==> next != [] && next[0] == tail.arg) && (tail.Lacking? ==> next == [])
  {
    hide Listed, Unlisted;
    var c, more := text[0], text[1..];
    assert text == [c] + more;
    LetterKinds(optstring, c);
    if Unlisted(optstring, c) || Listed(optstring, c, 0) {
      if more == [] {
        letters, tail := [c], NoTail;
      } else {
        letters, tail := SpellText(optstring, more, next);
        assert [c] + (letters + TailText(tail)) == ([c] + letters) + TailText(tail);
        letters := [c] + letters;
      }
    } else {
      letters := [];
      tail :=
        if more != [] then Joined(c, more)
        else if Listed(optstring, c, 2) then Bare(c)
        else if next != [] then Apart(c, next[0])
        else Lacking(c);
      assert [] + TailText(tail) == text;
    }
  }

  /** Every list of words is a command line spelled out. */
  lemma {:induction false} SpellWords(optstring: string, words: seq<string>) returns (l: Line)
    ensures LegalLine(optstring, l) && Words(l) == words
    decreases |words|
  {
    if words == [] {
      l := Line([], None);
    } else if words[0] == "--" {
      l := Line([], Some(words[1..]));
      assert words == ["--"] + words[1..];
    } else {
      var p := SpellFirst(optstring, words);
      var n := |Spelled(p)|;
      l := SpellWords(optstring, words[n..]);
      assert words == Spelled(p) + words[n..];
      PieceInFront(optstring, p, l);
      l := Line([p] + l.pieces, l.behind);
    }
  }

  lemma SpellFirst(optstring: string, words: seq<string>) returns (p: Piece)
    requires words != [] && words[0] != "--"
    ensures Legal(optstring, p) && 0 < |Spelled(p)| <= |words| && Spelled(p) == words[..|Spelled(p)|]
    ensures p.Options? && p.tail.Lacking? ==> |words| == 1
  {
    hide Listed, Unlisted;
    var w := words[0];
    if |w| < 2 || w[0] != '-' {
      p := Operand(w);
    } else {
      assert w == "-" + w[1..];
      var letters, tail := SpellText(optstring, w[1..], words[1..]);
      p := Options(letters, tail);
      assert w[1..] != "-";
      assert Spelled(p)[0] == w;
    }
  }

  lemma PieceInFront(optstring: string, p: Piece, l: Line)
    requires Legal(optstring, p) && LegalLine(optstring, l)
    requires p.Options? && p.tail.Lacking? ==> Words(l) == []
    ensures LegalLine(optstring, Line([p] + l.pieces, l.behind))
    ensures Words(Line([p] + l.pieces, l.behind)) == Spelled(p) + Words(l)
  {
    hide Legal;
    var pieces := [p] + l.pieces;
    assert pieces[1..] == l.pieces;
    if p.Options? && p.tail.Lacking? { NothingSaid(l); }
  }

  lemma NothingSaid(l: Line)
    requires Words(l) == []
    ensures l.pieces == [] && l.behind.None?
  {
  }

  /** The scanner, in place, on a command line spelled out behind a program name. */
  method ScanLine(argv: array<string>, optstring: string, ghost l: Line) returns (answers: seq<Answer>, optind: nat)
    requires argv.Length >= 1 && (optstring != [] ==> optstring[0] != '-' && optstring[0] != '+')
    requires LegalLine(optstring, l) && argv[1..] == Words(l)
    modifies argv
    ensures answers == Said(optstring, l) && optind == 1 + |OptionWords(l)|
    ensures argv[..] == old(argv[..1]) + OptionWords(l) + OperandWords(l)
  {
    hide Parse, LegalLine, Words, Said, OptionWords, OperandWords;
    ReadBack(optstring, l);
    answers, optind := Scan(argv, optstring);
  }
}
