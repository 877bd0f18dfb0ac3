/** The argument tokenizer SplitCommandToArgs (src/common/base.cpp). */
module CommandLine {
  import opened Bytes

  const NUL: char := '\0'

  predicate IsBlank(c: char) { c == ' ' || c == '\t' || c == '\n' || c == '\r' }

  /** The tokenizer between two characters: finished arguments, the one being read, and its modes. */
  datatype Lexer = Lexer(done: seq<string>, cur: string, open: bool, quoted: bool)

  const START := Lexer([], "", false, false)

  function Next(l: Lexer, a: char): Lexer
  {
    if l.quoted then
      if a == '"' then l.(quoted := false) else l.(cur := l.cur + [a])
    else if a == '"' then l.(quoted := true, open := true)
    else if IsBlank(a) then
      if l.open then l.(done := l.done + [l.cur], cur := "", open := false) else l
    else l.(open := true, cur := l.cur + [a])
  }

  function Scan(l: Lexer, s: string): Lexer
    decreases |s|
  {
    if s == "" then l else Scan(Next(l, s[0]), s[1..])
  }

  function Finished(l: Lexer): seq<string>
  {
    l.done + if l.open then [l.cur] else []
  }

  /** The arguments of a command line. */
  function Args(s: string): seq<string>
  {
    Finished(Scan(START, s))
  }

  lemma {:induction false} ScanJoin(l: Lexer, s: string, t: string)
    ensures Scan(l, s + t) == Scan(Scan(l, s), t)
    decreases |s|
  {
    if s == "" {
      assert s + t == t;
    } else {
      assert (s + t)[1..] == s[1..] + t;
      ScanJoin(Next(l, s[0]), s[1..], t);
    }
  }

  lemma ScanSnoc(l: Lexer, s: string, a: char)
    ensures Scan(l, s + [a]) == Next(Scan(l, s), a)
  {
    ScanJoin(l, s, [a]);
    assert Scan(Scan(l, s), [a]) == Scan(Next(Scan(l, s), a), [a][1..]);
  }

  // ------------------------------------------------------------ quoting

  function Quote(arg: string): string { "\"" + arg + "\"" }

  function QuoteAll(args: seq<string>): string
  {
    if args == [] then "" else if |args| == 1 then Quote(args[0]) else Quote(args[0]) + " " + QuoteAll(args[1..])
  }

  lemma {:induction false} ScanQuoted(l: Lexer, t: string)
    requires l.quoted && '"' !in t
    ensures Scan(l, t) == l.(cur := l.cur + t)
    decreases |t|
  {
    if t == "" {
      assert l.cur + t == l.cur;
    } else {
      ScanQuoted(Next(l, t[0]), t[1..]);
      assert l.cur + [t[0]] + t[1..] == l.cur + t;
    }
  }

  lemma ScanQuote(l: Lexer, arg: string)
    requires !l.quoted && l.cur == "" && '"' !in arg
    ensures Scan(l, Quote(arg)) == l.(cur := arg, open := true)
  {
    var inside := l.(quoted := true, open := true);
    ScanJoin(l, "\"" + arg, "\"");
    ScanJoin(l, "\"", arg);
    assert Scan(l, "\"") == Scan(inside, "\""[1..]) == inside;
    ScanQuoted(inside, arg);
    assert "" + arg == arg;
    var closed := l.(cur := arg, open := true);
    assert Scan(inside.(cur := arg), "\"") == Scan(closed, "\""[1..]) == closed;
  }

  lemma {:induction false} ScanQuoteAll(done: seq<string>, args: seq<string>)
    requires args != [] && forall i :: 0 <= i < |args| ==> '"' !in args[i]
    ensures Scan(Lexer(done, "", false, false), QuoteAll(args)) ==
      Lexer(done + args[..|args| - 1], args[|args| - 1], true, false)
    decreases |args|
  {
    var l := Lexer(done, "", false, false);
    ScanQuote(l, args[0]);
    if |args| == 1 {
      assert done + args[..0] == done;
    } else {
      var q := Quote(args[0]) + " ";
      ScanSnoc(l, Quote(args[0]), ' ');
      ScanJoin(l, q, QuoteAll(args[1..]));
      ScanQuoteAll(done + [args[0]], args[1..]);
      assert done + [args[0]] + args[1..][..|args| - 2] == done + args[..|args| - 1];
    }
  }

  lemma FinishedAll(args: seq<string>)
    requires args != []
    ensures Finished(Lexer([] + args[..|args| - 1], args[|args| - 1], true, false)) == args
  {
    var n := |args| - 1;
    assert [] + args[..n] == args[..n];
    assert args[..n] + [args[n]] == args;
  }

  lemma ArgsFrom(s: string, l: Lexer)
    requires Scan(START, s) == l
    ensures Args(s) == Finished(l)
  {
  }

  /** Quoting arguments and joining them with blanks is undone by splitting, empty arguments included. */
  lemma SplitQuoted(args: seq<string>)
    requires args != [] && forall i :: 0 <= i < |args| ==> '"' !in args[i]
    ensures Args(QuoteAll(args)) == args
  {
    ScanQuoteAll([], args);
    FinishedAll(args);
    ArgsFrom(QuoteAll(args), Lexer([] + args[..|args| - 1], args[|args| - 1], true, false));
  }

  // ------------------------------------------------------------ plain words

  /** A word that needs no quotes. */
  predicate Plain(w: string)
  {
    w != "" && forall i :: 0 <= i < |w| ==> !IsBlank(w[i]) && w[i] != '"'
  }

  predicate Blanks(s: string)
  {
    forall i :: 0 <= i < |s| ==> IsBlank(s[i])
  }

  /** Words with blanks before and behind each. */
  function Spaced(words: seq<string>, gaps: seq<string>): string
    requires |gaps| == |words|
    decreases |words|
  {
    if words == [] then "" else words[0] + gaps[0] + Spaced(words[1..], gaps[1..])
  }

  lemma {:induction false} ScanPlain(l: Lexer, w: string)
    requires !l.quoted && forall i :: 0 <= i < |w| ==> !IsBlank(w[i]) && w[i] != '"'
    ensures Scan(l, w) == if w == "" then l else l.(open := true, cur := l.cur + w)
    decreases |w|
  {
    if w != "" {
      ScanPlain(Next(l, w[0]), w[1..]);
      assert l.cur + [w[0]] + w[1..] == l.cur + w;
    }
  }

  lemma {:induction false} ScanBlanks(l: Lexer, s: string)
    requires !l.quoted && Blanks(s) && (!l.open ==> l.cur == "")
    ensures Scan(l, s) == if s != "" && l.open then Lexer(l.done + [l.cur], "", false, false) else l
    decreases |s|
  {
    if s != "" {
      ScanBlanks(Next(l, s[0]), s[1..]);
    }
  }

  lemma {:induction false} ScanSpaced(done: seq<string>, words: seq<string>, gaps: seq<string>)
    requires |gaps| == |words| && (forall i :: 0 <= i < |words| ==> Plain(words[i]) && Blanks(gaps[i]))
    requires forall i :: 0 <= i < |words| - 1 ==> gaps[i] != ""
    ensures Finished(Scan(Lexer(done, "", false, false), Spaced(words, gaps))) == done + words
    decreases |words|
  {
    var l := Lexer(done, "", false, false);
    if words == [] {
      assert done + words == done + [];
    } else {
      var rest := Spaced(words[1..], gaps[1..]);
      assert Plain(words[0]) && Blanks(gaps[0]);
      ScanPlain(l, words[0]);
      assert "" + words[0] == words[0];
      var inside := Lexer(done, words[0], true, false);
      ScanBlanks(inside, gaps[0]);
      ScanJoin(l, words[0], gaps[0]);
      ScanJoin(l, words[0] + gaps[0], rest);
      if |words| > 1 || gaps[0] != "" {
        ScanSpaced(done + [words[0]], words[1..], gaps[1..]);
        assert done + [words[0]] + words[1..] == done + words;
      } else {
        assert rest == "";
        assert [words[0]] == words;
      }
    }
  }

  /** Plain words with blanks between them, of any kind and number, also in front and behind, split into
      exactly those words. */
  lemma SplitWords(before: string, words: seq<string>, gaps: seq<string>)
    requires |gaps| == |words| && Blanks(before)
    requires forall i :: 0 <= i < |words| ==> Plain(words[i]) && Blanks(gaps[i])
    requires forall i :: 0 <= i < |words| - 1 ==> gaps[i] != ""
    ensures Args(before + Spaced(words, gaps)) == words
  {
    ScanBlanks(START, before);
    ScanJoin(START, before, Spaced(words, gaps));
    ScanSpaced([], words, gaps);
    assert [] + words == words;
  }

  /** Which characters separate: blank, tab, newline and carriage return, and no other. */
  lemma BlankSplits(a: string, c: char, b: string)
    requires Plain(a) && Plain(b) && c != '"'
    ensures Args(a + [c] + b) == if c == ' ' || c == '\t' || c == '\n' || c == '\r' then [a, b] else [a + [c] + b]
  {
    if IsBlank(c) {
      SplitWords("", [a, b], [[c], ""]);
      assert Spaced([b], [""]) == b + "" + "" == b;
      assert [a, b][1..] == [b] && [[c], ""][1..] == [""];
      assert "" + Spaced([a, b], [[c], ""]) == a + [c] + b;
    } else {
      var w := a + [c] + b;
      SplitWords("", [w], [""]);
      assert Spaced([w], [""]) == w + "" + "" == w;
      assert "" + w == w;
    }
  }

  // ------------------------------------------------------------ words with quotes anywhere in them

  /** A part of an argument: characters as they are, or anything between quotes. */
  datatype Part = Bare(text: string) | Quoted(text: string)

  predicate Good(p: Part)
  {
    if p.Bare? then Plain(p.text) else '"' !in p.text
  }

  predicate AllGood(ps: seq<Part>)
  {
    ps != [] && forall i :: 0 <= i < |ps| ==> Good(ps[i])
  }

  /** An argument as it is typed, and what it means: its parts without the quotes, one after another. */
  function Typed(ps: seq<Part>): string
  {
    if ps == [] then "" else Piece(ps[0]) + Typed(ps[1..])
  }

  function Piece(p: Part): string
  {
    if p.Bare? then p.text else Quote(p.text)
  }

  function Meant(ps: seq<Part>): string
  {
    if ps == [] then "" else ps[0].text + Meant(ps[1..])
  }

  function TypedLine(args: seq<seq<Part>>, gaps: seq<string>): string
    requires |gaps| == |args|
    decreases |args|
  {
    if args == [] then "" else Typed(args[0]) + gaps[0] + TypedLine(args[1..], gaps[1..])
  }

  lemma ScanQuotePart(l: Lexer, arg: string)
    requires !l.quoted && '"' !in arg
    ensures Scan(l, Quote(arg)) == l.(cur := l.cur + arg, open := true)
  {
    var inside := l.(quoted := true, open := true);
    ScanJoin(l, "\"" + arg, "\"");
    ScanJoin(l, "\"", arg);
    assert Scan(l, "\"") == Scan(inside, "\""[1..]) == inside;
    ScanQuoted(inside, arg);
    var closed := l.(cur := l.cur + arg, open := true);
    assert Scan(inside.(cur := l.cur + arg), "\"") == Scan(closed, "\""[1..]) == closed;
  }

  lemma {:induction false} ScanParts(l: Lexer, ps: seq<Part>)
    requires !l.quoted && AllGood(ps)
    ensures Scan(l, Typed(ps)) == l.(open := true, cur := l.cur + Meant(ps))
    decreases |ps|
  {
    assert Good(ps[0]);
    ScanPart(l, ps[0]);
    if |ps| > 1 {
      ScanParts(l.(open := true, cur := l.cur + ps[0].text), ps[1..]);
      ScanTwo(l, Piece(ps[0]), Typed(ps[1..]), ps[0].text, Meant(ps[1..]));
    } else {
      OnePart(ps);
    }
  }

  lemma OnePart(ps: seq<Part>)
    requires |ps| == 1
    ensures Typed(ps) == Piece(ps[0]) && Meant(ps) == ps[0].text
  {
    assert ps[1..] == [];
    assert Piece(ps[0]) + "" == Piece(ps[0]) && ps[0].text + "" == ps[0].text;
  }

  lemma ScanTwo(l: Lexer, a: string, b: string, x: string, y: string)
    requires Scan(l, a) == l.(open := true, cur := l.cur + x)
    requires Scan(l.(open := true, cur := l.cur + x), b) == l.(open := true, cur := l.cur + x + y)
    ensures Scan(l, a + b) == l.(open := true, cur := l.cur + (x + y))
  {
    ScanJoin(l, a, b);
    assert l.cur + x + y == l.cur + (x + y);
  }

  lemma ScanPart(l: Lexer, p: Part)
    requires !l.quoted && Good(p)
    ensures Scan(l, Piece(p)) == l.(open := true, cur := l.cur + p.text)
  {
    if p.Bare? {
      ScanPlain(l, p.text);
    } else {
      ScanQuotePart(l, p.text);
    }
  }

  function AllMeant(args: seq<seq<Part>>): seq<string>
  {
    if args == [] then [] else [Meant(args[0])] + AllMeant(args[1..])
  }

  lemma {:induction false} ScanLine(done: seq<string>, args: seq<seq<Part>>, gaps: seq<string>)
    requires |gaps| == |args| && (forall i :: 0 <= i < |args| ==> AllGood(args[i]) && Blanks(gaps[i]))
    requires forall i :: 0 <= i < |args| - 1 ==> gaps[i] != ""
    ensures Finished(Scan(Lexer(done, "", false, false), TypedLine(args, gaps))) == done + AllMeant(args)
    decreases |args|
  {
    var l := Lexer(done, "", false, false);
    if args == [] {
      assert done + AllMeant(args) == done + [];
    } else {
      assert AllGood(args[0]) && Blanks(gaps[0]);
      ScanArg(done, args[0], gaps[0]);
      if |args| > 1 || gaps[0] != "" {
        ScanLine(done + [Meant(args[0])], args[1..], gaps[1..]);
        ScanMore(done, Typed(args[0]) + gaps[0], TypedLine(args[1..], gaps[1..]), Meant(args[0]), AllMeant(args[1..]));
      } else {
        OneArg(args, gaps);
      }
    }
  }

  lemma OneArg(args: seq<seq<Part>>, gaps: seq<string>)
    requires |args| == |gaps| == 1 && gaps[0] == ""
    ensures TypedLine(args, gaps) == Typed(args[0]) + gaps[0] && AllMeant(args) == [Meant(args[0])]
  {
    assert args[1..] == [] && gaps[1..] == [];
    assert Typed(args[0]) + gaps[0] + "" == Typed(args[0]) + gaps[0];
  }

  lemma ScanMore(done: seq<string>, a: string, b: string, x: string, more: seq<string>)
    requires Scan(Lexer(done, "", false, false), a) == Lexer(done + [x], "", false, false)
    requires Finished(Scan(Lexer(done + [x], "", false, false), b)) == done + [x] + more
    ensures Finished(Scan(Lexer(done, "", false, false), a + b)) == done + ([x] + more)
  {
    ScanJoin(Lexer(done, "", false, false), a, b);
    assert done + [x] + more == done + ([x] + more);
  }

  /** One argument and the blanks behind it. */
  lemma ScanArg(done: seq<string>, ps: seq<Part>, gap: string)
    requires AllGood(ps) && Blanks(gap)
    ensures Scan(Lexer(done, "", false, false), Typed(ps) + gap) ==
      if gap == "" then Lexer(done, Meant(ps), true, false) else Lexer(done + [Meant(ps)], "", false, false)
  {
    var l := Lexer(done, "", false, false);
    ScanParts(l, ps);
    assert "" + Meant(ps) == Meant(ps);
    ScanBlanks(Lexer(done, Meant(ps), true, false), gap);
    ScanJoin(l, Typed(ps), gap);
  }

  /** Every command line: arguments of any parts, bare and quoted in any order with no blank between them,
      with blanks of any kind and number around, split into exactly what was meant. */
  lemma SplitParts(before: string, args: seq<seq<Part>>, gaps: seq<string>)
    requires |gaps| == |args| && Blanks(before)
    requires forall i :: 0 <= i < |args| ==> AllGood(args[i]) && Blanks(gaps[i])
    requires forall i :: 0 <= i < |args| - 1 ==> gaps[i] != ""
    ensures Args(before + TypedLine(args, gaps)) == AllMeant(args)
  {
    ScanBlanks(START, before);
    ScanJoin(START, before, TypedLine(args, gaps));
    ScanLine([], args, gaps);
    assert [] + AllMeant(args) == AllMeant(args);
  }

  function QuoteCount(s: string): nat
  {
    if s == "" then 0 else (if s[0] == '"' then 1 else 0) + QuoteCount(s[1..])
  }

  lemma {:induction false} QuotedIff(l: Lexer, s: string)
    ensures Scan(l, s).quoted <==> (l.quoted <==> QuoteCount(s) % 2 == 0)
    decreases |s|
  {
    if s != "" {
      QuotedIff(Next(l, s[0]), s[1..]);
    }
  }

  lemma {:induction false} QuotedIsOpen(l: Lexer, s: string)
    requires l.quoted ==> l.open
    ensures Scan(l, s).quoted ==> Scan(l, s).open
    decreases |s|
  {
    if s != "" {
      QuotedIsOpen(Next(l, s[0]), s[1..]);
    }
  }

  /** A missing last quote counts as standing at the end of the line. */
  lemma MissingQuote(s: string)
    requires QuoteCount(s) % 2 == 1
    ensures Args(s) == Args(s + "\"") && Args(s) != []
  {
    QuotedIff(START, s);
    QuotedIsOpen(START, s);
    ScanSnoc(START, s, '"');
    assert s + ['"'] == s + "\"";
  }

  // ------------------------------------------------------------ the text area

  /** The arguments one after another, each with its NUL. */
  function Layout(args: seq<string>): string
  {
    if args == [] then "" else Layout(args[..|args| - 1]) + args[|args| - 1] + [NUL]
  }

  lemma LayoutSnoc(args: seq<string>, arg: string)
    ensures Layout(args + [arg]) == Layout(args) + arg + [NUL]
  {
    assert (args + [arg])[..|args|] == args;
  }

  /** The C string that starts at an offset. */
  function CString(s: string): (r: string)
    ensures r <= s
  {
    if s == "" || s[0] == NUL then "" else [s[0]] + CString(s[1..])
  }

  lemma {:induction false} CStringEnds(a: string, rest: string)
    requires NUL !in a
    ensures CString(a + [NUL] + rest) == a
    decreases |a|
  {
    var s := a + [NUL] + rest;
    if a != "" {
      assert s[1..] == a[1..] + [NUL] + rest;
      CStringEnds(a[1..], rest);
    }
  }

  predicate NulFree(args: seq<string>)
  {
    forall i :: 0 <= i < |args| ==> NUL !in args[i]
  }

  lemma LayoutTail(before: string, last: string, rest: string)
    ensures (before + last + [NUL]) + rest == before + (last + [NUL] + rest)
    ensures ((before + last + [NUL]) + rest)[|before|..] == last + [NUL] + rest
  {
  }

  /** The k-th argument is the C string at the end of those before it. */
  lemma {:induction false} LayoutHolds(args: seq<string>, rest: string, k: nat)
    requires NulFree(args) && k < |args|
    ensures |Layout(args[..k])| <= |Layout(args)|
    ensures CString((Layout(args) + rest)[|Layout(args[..k])|..]) == args[k]
    decreases |args|
  {
    var n := |args| - 1;
    var last := args[n];
    LayoutTail(Layout(args[..n]), last, rest);
    if k == n {
      CStringEnds(last, rest);
    } else {
      LayoutHolds(args[..n], last + [NUL] + rest, k);
      assert args[..n][..k] == args[..k];
    }
  }

  lemma {:induction false} ScanNulFree(l: Lexer, s: string)
    requires NulFree(l.done) && NUL !in l.cur && NUL !in s
    ensures NulFree(Scan(l, s).done) && NUL !in Scan(l, s).cur
    decreases |s|
  {
    if s != "" {
      ScanNulFree(Next(l, s[0]), s[1..]);
    }
  }

  /** A pointer into the text, as an offset; None is the null pointer. */
  type Slot = Option<nat>

  /** Where the tokenizer stands in its memory: the text so far, and the offset of every argument begun. */
  ghost predicate Placed(l: Lexer, temp: seq<char>, j: nat, argv: seq<Slot>, argc: nat)
  {
    && j <= |temp| && temp[..j] == Layout(l.done) + l.cur && (!l.open ==> l.cur == "" && !l.quoted)
    && argc == |l.done| + (if l.open then 1 else 0) && argc <= |argv|
    && forall k :: 0 <= k < argc ==> k <= |l.done| && argv[k] == Some(|Layout(l.done[..k])|)
  }

  /** How many arguments and text characters i characters of input can give. */
  predicate Bounded(l: Lexer, i: nat, j: nat, argc: nat)
  {
    j <= i && 2 * argc <= i + (if l.open then 1 else 0)
  }

  /** One character of the loop: what is written where, and the two modes (isSpace is not isText). */
  method Take(ghost l: Lexer, isQuoted: bool, isText: bool, a: char, temp: array<char>, j: nat, argv: array<Slot>, argc: nat)
    returns (isQuoted': bool, isText': bool, j': nat, argc': nat)
    requires a != NUL && j < temp.Length && argc < argv.Length && isQuoted == l.quoted && isText == l.open
    requires Placed(l, temp[..], j, argv[..], argc)
    modifies temp, argv
    ensures isQuoted' == Next(l, a).quoted && isText' == Next(l, a).open
    ensures j <= j' <= j + 1
    ensures argc' == argc + (if !l.open && Next(l, a).open then 1 else 0)
    ensures Placed(Next(l, a), temp[..], j', argv[..], argc')
  {
    isQuoted', isText', j', argc' := isQuoted, isText, j, argc;
    ghost var text, offsets := temp[..], argv[..];
    if isQuoted {
      if a == '"' {
        isQuoted' := false;
      } else {
        temp[j] := a;
        j' := j + 1;
      }
    } else if a == '"' {
      isQuoted' := true;
      isText' := true;
      if !isText {
        argv[argc] := Some(j);
        argc' := argc + 1;
      }
    } else if IsBlank(a) {
      if isText {
        temp[j] := NUL;
        j' := j + 1;
      }
      isText' := false;
    } else {
      isText' := true;
      if !isText {
        argv[argc] := Some(j);
        argc' := argc + 1;
      }
      temp[j] := a;
      j' := j + 1;
    }
    PlacedNext(l, a, text, offsets, temp[..], argv[..], j, j', argc, argc');
  }

  /** The text after one more character. */
  lemma TextNext(l: Lexer, a: char, text: seq<char>, text': seq<char>, j: nat, j': nat)
    requires j < |text| == |text'| && text[..j] == text'[..j] == Layout(l.done) + l.cur
    requires !l.open ==> l.cur == "" && !l.quoted
    requires j' == j + (if l.quoted then (if a == '"' then 0 else 1)
                        else if a == '"' then 0 else if IsBlank(a) && !l.open then 0 else 1)
    requires j' == j + 1 ==> text'[j] == if !l.quoted && IsBlank(a) then NUL else a
    ensures text'[..j'] == Layout(Next(l, a).done) + Next(l, a).cur
  {
    if j' == j + 1 {
      assert text'[..j'] == text'[..j] + [text'[j]];
    }
    if !l.quoted && IsBlank(a) && l.open {
      LayoutSnoc(l.done, l.cur);
    }
  }

  /** The slots after one more character. */
  lemma SlotsNext(l: Lexer, a: char, offsets: seq<Slot>, offsets': seq<Slot>, j: nat, argc: nat, argc': nat)
    requires j == |Layout(l.done) + l.cur| && (!l.open ==> l.cur == "" && !l.quoted)
    requires argc == |l.done| + (if l.open then 1 else 0) && argc < |offsets| == |offsets'|
    requires forall k :: 0 <= k < argc ==> k <= |l.done| && offsets[k] == Some(|Layout(l.done[..k])|)
    requires argc' == argc + (if !l.open && Next(l, a).open then 1 else 0)
    requires offsets'[..argc] == offsets[..argc] && (argc' == argc + 1 ==> offsets'[argc] == Some(j))
    ensures forall k :: 0 <= k < argc' ==>
      k <= |Next(l, a).done| && offsets'[k] == Some(|Layout(Next(l, a).done[..k])|)
  {
    var n := Next(l, a);
    forall k | 0 <= k < argc' ensures k <= |n.done| && offsets'[k] == Some(|Layout(n.done[..k])|) {
      if k < argc {
        assert offsets'[k] == offsets'[..argc][k] == offsets[k];
        assert n.done[..k] == l.done[..k];
      } else {
        assert l.done[..k] == l.done;
      }
    }
  }

  lemma PlacedNext(l: Lexer, a: char, text: seq<char>, offsets: seq<Slot>, text': seq<char>, offsets': seq<Slot>,
                   j: nat, j': nat, argc: nat, argc': nat)
    requires Placed(l, text, j, offsets, argc) && |text'| == |text| && |offsets'| == |offsets|
    requires j < |text| && argc < |offsets|
    requires j' == j + (if l.quoted then (if a == '"' then 0 else 1)
                        else if a == '"' then 0 else if IsBlank(a) && !l.open then 0 else 1)
    requires text'[..j] == text[..j]
    requires j' == j + 1 ==> text'[j] == if !l.quoted && IsBlank(a) then NUL else a
    requires argc' == argc + (if !l.open && Next(l, a).open then 1 else 0)
    requires offsets'[..argc] == offsets[..argc] && (argc' == argc + 1 ==> offsets'[argc] == Some(j))
    ensures Placed(Next(l, a), text', j', offsets', argc')
  {
    assert |text[..j]| == j;
    TextNext(l, a, text, text', j, j');
    SlotsNext(l, a, offsets, offsets', j, argc, argc');
  }

  /** The loop over the characters. */
  method Tokenize(line: string, temp: array<char>, argv: array<Slot>) returns (j: nat, argc: nat)
    requires NUL !in line && temp.Length == |line| + 2 && argv.Length == (|line| + 2) / 2 + 1
    modifies temp, argv
    ensures var l := Scan(START, line); Placed(l, temp[..], j, argv[..], argc) && Bounded(l, |line|, j, argc)
  {
    var isQuoted, isText, i := false, false, 0;
    j, argc := 0, 0;
    ghost var l := START;
    while i < |line|
      invariant i <= |line| && l == Scan(START, line[..i]) && isQuoted == l.quoted && isText == l.open
      invariant Placed(l, temp[..], j, argv[..], argc) && Bounded(l, i, j, argc)
    {
      ScanNext(START, line, i);
      isQuoted, isText, j, argc := Take(l, isQuoted, isText, line[i], temp, j, argv, argc);
      l := Next(l, line[i]);
      i := i + 1;
    }
    assert line[..|line|] == line;
  }

  lemma ScanNext(l: Lexer, line: string, i: nat)
    requires i < |line|
    ensures Scan(l, line[..i + 1]) == Next(Scan(l, line[..i]), line[i])
  {
    assert line[..i + 1] == line[..i] + [line[i]];
    ScanSnoc(l, line[..i], line[i]);
  }

  /** The whole tokenizer in its one allocation: len + 2 characters of text behind (len + 2) / 2 + 1 slots.
      Every write stays inside, the slots lead to the arguments, and a null pointer ends them. */
  method SplitCommandToArgs(line: string) returns (found: bool, argc: nat, argv: array<Slot>, temp: array<char>)
    requires NUL !in line
    ensures found == (line != "")
    ensures found ==>
      && argc == |Args(line)| <= (|line| + 1) / 2 && argc < argv.Length == (|line| + 2) / 2 + 1
      && temp.Length == |line| + 2 && argv[argc] == None
      && forall k :: 0 <= k < argc ==> Holds(argv[k], temp[..], Args(line)[k])
  {
    argc := 0;
    if |line| < 1 {
      argv, temp := new Slot[0], new char[0];
      return false, argc, argv, temp;
    }
    argv := new Slot[(|line| + 2) / 2 + 1];
    temp := new char[|line| + 2];
    argv[0] := Some(0);
    var j;
    j, argc := Tokenize(line, temp, argv);
    temp[j] := NUL;
    argv[argc] := None;
    ScanNulFree(START, line);
    forall k | 0 <= k < argc ensures Holds(argv[k], temp[..], Args(line)[k]) {
      FinishedAt(Scan(START, line), temp[..], j, argv[..], argc, k);
    }
    found := true;
  }

  /** The slot leads to that argument, as a C string. */
  predicate Holds(slot: Slot, temp: seq<char>, arg: string)
  {
    slot.Some? && slot.value <= |temp| && CString(temp[slot.value..]) == arg
  }

  lemma FinishedAt(l: Lexer, temp: seq<char>, j: nat, argv: seq<Slot>, argc: nat, k: nat)
    requires Placed(l, temp, j, argv, argc) && j < |temp| && temp[j] == NUL && k < argc
    requires NulFree(l.done) && NUL !in l.cur
    ensures k < |Finished(l)| && Holds(argv[k], temp, Finished(l)[k])
  {
    var rest := temp[j + 1..];
    assert temp == temp[..j] + [NUL] + rest;
    if l.open {
      LayoutSnoc(l.done, l.cur);
      var all := l.done + [l.cur];
      assert temp == Layout(all) + rest;
      LayoutHolds(all, rest, k);
      assert all[..k] == l.done[..k];
    } else {
      assert temp == Layout(l.done) + ([NUL] + rest);
      LayoutHolds(l.done, [NUL] + rest, k);
    }
  }
}
