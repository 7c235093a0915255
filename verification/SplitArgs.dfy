/**
 splitArgs of internal/cmd/pipe.go (lines 112-142): a pipeline stage cut into arguments. A string is the
 sequence of its bytes.
 */
module SplitArgs {
  import opened Text

  predicate Blank(c: char) { c == ' ' || c == '\t' }

  predicate Mark(c: char) { c == '"' || c == '\'' }

  // ---------------------------------------------------------------- the grammar

  /** The rest of a word from inside a quote, and what follows the word; a quote may stay unclosed. */
  function Inside(q: char, s: string): (r: (string, string))
    ensures |r.1| <= |s|
    decreases |s|
  {
    var n := FindChar(s, q);
    if n == |s| then (s, "")
    else
      var (word, rest) := Word(s[n + 1..]);
      (s[..n] + word, rest)
  }

  /** One word: bare bytes and quoted parts up to the first blank outside a quote. */
  function Word(s: string): (r: (string, string))
    ensures |r.1| <= |s|
    ensures s != "" && !Blank(s[0]) ==> |r.1| < |s|
    decreases |s|
  {
    if s == "" || Blank(s[0]) then ("", s)
    else if Mark(s[0]) then Inside(s[0], s[1..])
    else
      var (word, rest) := Word(s[1..]);
      ([s[0]] + word, rest)
  }

  function Emit(word: string): seq<string> {
    if word == "" then [] else [word]
  }

  /** The words of a line; empty ones do not count. */
  function Words(s: string): seq<string>
    decreases |s|
  {
    if s == "" then []
    else if Blank(s[0]) then Words(s[1..])
    else
      var (word, rest) := Word(s);
      Emit(word) + Words(rest)
  }

  lemma FindFirst(s: string, c: char, t: string)
    ensures FindChar(s, c) < |s| ==> FindChar(s + t, c) == FindChar(s, c)
    ensures c !in s && t != "" && t[0] == c ==> FindChar(s + t, c) == |s|
    ensures c !in s + t ==> FindChar(s + t, c) == |s + t|
  {
    var i, j := FindChar(s, c), FindChar(s + t, c);
    assert forall k :: 0 <= k < |s| ==> (s + t)[k] == s[k];
    if c !in s && t != "" && t[0] == c {
      assert (s + t)[|s|] == c;
    }
  }

  lemma Cut(s: string, t: string, i: nat, k: nat)
    requires i <= k <= |s|
    ensures (s + t)[k..] == s[k..] + t && (s + t)[i..k] == s[i..k]
  {}

  /** A text that is one word. */
  lemma OneWord(s: string)
    requires s != "" ==> !Blank(s[0]) && Word(s).1 == ""
    ensures Words(s) == Emit(Word(s).0)
  {
    assert Emit(Word(s).0) + Words("") == Emit(Word(s).0);
  }

  // ---------------------------------------------------------------- the scanner

  /** What a scan that has `current` in its buffer still has to deliver for the text `s`. */
  function Rest(current: string, inQuote: bool, quoteChar: char, s: string): seq<string> {
    var (word, rest) := if inQuote then Inside(quoteChar, s) else Word(s);
    Emit(current + word) + Words(rest)
  }

  lemma RestOfNothing(quoteChar: char, s: string)
    ensures Rest("", false, quoteChar, s) == Words(s)
  {
    var (word, rest) := Word(s);
    assert "" + word == word;
  }

  lemma InsideGoesOn(q: char, s: string)
    requires s != "" && s[0] != q
    ensures Inside(q, s) == ([s[0]] + Inside(q, s[1..]).0, Inside(q, s[1..]).1)
  {
    hide Word;
    var n := FindChar(s[1..], q);
    if n < |s| - 1 {
      assert s[1..][n + 1..] == s[n + 2..];
      var word := Word(s[n + 2..]).0;
      assert s[..n + 1] + word == [s[0]] + (s[1..][..n] + word);
    } else {
      assert s == [s[0]] + s[1..];
    }
  }

  /** A quoted text that holds no such mark ends at the next one. */
  lemma InsideEnds(q: char, text: string)
    requires q !in text
    ensures Inside(q, text + [q]) == (text, "")
  {
    FindFirst(text, q, [q]);
    assert (text + [q])[|text| + 1..] == "" && Word("") == ("", "");
    assert (text + [q])[..|text|] == text && text + "" == text;
  }

  /** One byte that joins the buffer. */
  lemma RestWrite(current: string, inQuote: bool, quoteChar: char, s: string)
    requires s != "" && if inQuote then s[0] != quoteChar else !Mark(s[0]) && !Blank(s[0])
    ensures Rest(current, inQuote, quoteChar, s) == Rest(current + [s[0]], inQuote, quoteChar, s[1..])
  {
    var (word, rest) := if inQuote then Inside(quoteChar, s[1..]) else Word(s[1..]);
    if inQuote {
      InsideGoesOn(quoteChar, s);
    }
    assert current + ([s[0]] + word) == current + [s[0]] + word;
  }

  lemma RestUnquote(current: string, quoteChar: char, s: string)
    requires s != "" && s[0] == quoteChar
    ensures Rest(current, true, quoteChar, s) == Rest(current, false, quoteChar, s[1..])
  {
    assert s[..0] + Word(s[1..]).0 == Word(s[1..]).0;
  }

  lemma RestQuote(current: string, quoteChar: char, s: string)
    requires s != "" && Mark(s[0])
    ensures Rest(current, false, quoteChar, s) == Rest(current, true, s[0], s[1..])
  {}

  lemma RestBlank(current: string, quoteChar: char, s: string)
    requires s != "" && Blank(s[0])
    ensures Rest(current, false, quoteChar, s) == Emit(current) + Words(s[1..])
  {
    assert current + "" == current;
  }

  lemma RestAtEnd(current: string, inQuote: bool, quoteChar: char)
    ensures Rest(current, inQuote, quoteChar, "") == Emit(current)
  {
    assert current + "" == current;
  }

  /** The byte loop delivers the words of the grammar. */
  method SplitArgs(s: string) returns (args: seq<string>)
    ensures args == Words(s)
  {
    hide Words, Word, Inside;
    args := [];
    var current, inQuote, quoteChar := "", false, '\0';
    RestOfNothing(quoteChar, s);
    assert s[0..] == s;
    for i := 0 to |s|
      invariant args + Rest(current, inQuote, quoteChar, s[i..]) == Words(s)
    {
      var c := s[i];
      assert s[i..][1..] == s[i + 1..];
      ghost var here := args + Rest(current, inQuote, quoteChar, s[i..]);
      if inQuote {
        if c == quoteChar {
          RestUnquote(current, quoteChar, s[i..]);
          inQuote := false;
        } else {
          RestWrite(current, true, quoteChar, s[i..]);
          current := current + [c];
        }
      } else if c == '"' || c == '\'' {
        RestQuote(current, quoteChar, s[i..]);
        inQuote := true;
        quoteChar := c;
      } else if c == ' ' || c == '\t' {
        RestBlank(current, quoteChar, s[i..]);
        assert args + (Emit(current) + Words(s[i + 1..])) == (args + Emit(current)) + Words(s[i + 1..]);
        if |current| > 0 {
          args := args + [current];
          current := "";
        } else {
          assert args + Emit(current) == args;
        }
        RestOfNothing(quoteChar, s[i + 1..]);
      } else {
        RestWrite(current, false, quoteChar, s[i..]);
        current := current + [c];
      }
    }
    RestAtEnd(current, inQuote, quoteChar);
    if |current| > 0 {
      args := args + [current];
    }
  }

  // ---------------------------------------------------------------- lines that are put together

  /** The text ends inside a quote. */
  predicate EndsOpen(s: string)
    decreases |s|
  {
    if s == "" then false
    else if Mark(s[0]) then
      var n := FindChar(s[1..], s[0]);
      n == |s| - 1 || EndsOpen(s[n + 2..])
    else EndsOpen(s[1..])
  }

  lemma WordOfQuote(s: string)
    requires s != "" && Mark(s[0])
    ensures Word(s) == Inside(s[0], s[1..])
  {}

  /** A word that begins with a closed quote, by what follows the quote. */
  lemma WordAtMark(s: string, n: nat)
    requires s != "" && Mark(s[0]) && n == FindChar(s[1..], s[0]) < |s| - 1
    ensures Word(s) == (s[1..n + 1] + Word(s[n + 2..]).0, Word(s[n + 2..]).1)
  {
    hide Word, FindChar;
    WordOfQuote(s);
    assert s[1..][n + 1..] == s[n + 2..] && s[1..][..n] == s[1..n + 1];
  }

  lemma WordBeforeMark(s: string, t: string, n: nat)
    requires s != "" && Mark(s[0]) && n == FindChar(s[1..], s[0]) < |s| - 1
    requires Word(s[n + 2..] + t) == (Word(s[n + 2..]).0, Word(s[n + 2..]).1 + t)
    ensures Word(s + t) == (Word(s).0, Word(s).1 + t)
  {
    hide Word;
    FindFirst(s[1..], s[0], t);
    Cut(s, t, 1, 1);
    Cut(s, t, 1, n + 1);
    Cut(s, t, 1, n + 2);
    WordAtMark(s, n);
    WordAtMark(s + t, n);
  }

  lemma {:induction false} WordBefore(s: string, t: string)
    requires !EndsOpen(s) && t != "" && Blank(t[0])
    ensures Word(s + t) == (Word(s).0, Word(s).1 + t) && !EndsOpen(Word(s).1)
    decreases |s|
  {
    hide Inside;
    if s == "" {
      assert s + t == t;
    } else if Mark(s[0]) {
      var n := FindChar(s[1..], s[0]);
      WordBefore(s[n + 2..], t);
      WordBeforeMark(s, t, n);
      WordAtMark(s, n);
    } else if !Blank(s[0]) {
      Cut(s, t, 1, 1);
      WordBefore(s[1..], t);
    }
  }

  /** At a blank outside a quote the arguments of a line are those of its two parts. */
  lemma {:induction false} SplitAtBlank(s: string, t: string)
    requires !EndsOpen(s) && t != "" && Blank(t[0])
    ensures Words(s + t) == Words(s) + Words(t)
    decreases |s|
  {
    if s == "" {
      assert s + t == t;
    } else if Blank(s[0]) {
      assert (s + t)[1..] == s[1..] + t;
      SplitAtBlank(s[1..], t);
    } else {
      WordBefore(s, t);
      SplitAtBlank(Word(s).1, t);
    }
  }

  predicate Ordinary(c: char) { c != ' ' && c != '\t' && c != '"' && c != '\'' }

  lemma OrdinaryInWord(c: char, s: string)
    requires Ordinary(c)
    ensures Word([c] + s) == ([c] + Word(s).0, Word(s).1)
  {
    assert ([c] + s)[1..] == s;
  }

  lemma QuoteToTheEnd(q: char, s: string)
    requires Mark(q) && q !in s
    ensures Word([q] + s) == (s, "")
  {
    hide Word;
    assert ([q] + s)[1..] == s;
    assert Inside(q, s) == (s, "");
    WordOfQuote([q] + s);
  }

  /** What one byte does between two ordinary ones: space and tab part them, quotes join them, the rest stays. */
  lemma BytesByKind(x: char, c: char, y: char)
    requires Ordinary(x) && Ordinary(y)
    ensures Words([x, c, y]) == if Ordinary(c) then [[x, c, y]]
                                else if c == ' ' || c == '\t' then [[x], [y]] else [[x, y]]
  {
    hide Word, Inside;
    var s := [x, c, y];
    assert s == [x] + [c, y] && [c, y] == [c] + [y] && [y] == [y] + "";
    OrdinaryInWord(x, [c, y]);
    NoWord("");
    OrdinaryInWord(y, "");
    assert Word([y]) == ([y], "");
    OneWord([y]);
    if Blank(c) {
      NoWord([c, y]);
      assert [c, y][1..] == [y];
      assert [x] + "" == [x];
      assert Words(s) == Emit([x]) + Words([c, y]);
      assert Words([c, y]) == Words([y]);
    } else {
      if Mark(c) {
        QuoteToTheEnd(c, [y]);
        assert [x] + [y] == [x, y];
      } else {
        OrdinaryInWord(c, [y]);
        assert Word(s) == ([x, c, y], "");
      }
      OneWord(s);
    }
  }

  lemma NoWord(s: string)
    requires s == "" || Blank(s[0])
    ensures Word(s) == ("", s)
  {}

  // ---------------------------------------------------------------- nothing is lost

  /** The text without its quote marks and without the blanks outside quotes. */
  function Kept(s: string): string
    decreases |s|
  {
    if s == "" then ""
    else if Mark(s[0]) then
      var n := FindChar(s[1..], s[0]);
      if n == |s| - 1 then s[1..] else s[1..n + 1] + Kept(s[n + 2..])
    else if Blank(s[0]) then Kept(s[1..])
    else [s[0]] + Kept(s[1..])
  }

  function Flatten(args: seq<string>): string {
    if args == [] then "" else args[0] + Flatten(args[1..])
  }

  lemma {:induction false} WordKept(s: string)
    ensures Word(s).0 + Kept(Word(s).1) == Kept(s)
    decreases |s|
  {
    if s != "" && Mark(s[0]) {
      var n := FindChar(s[1..], s[0]);
      if n < |s| - 1 {
        assert s[1..][n + 1..] == s[n + 2..] && s[1..][..n] == s[1..n + 1];
        WordKept(s[n + 2..]);
      }
    } else if s != "" && !Blank(s[0]) {
      WordKept(s[1..]);
    }
  }

  /** The arguments, put end to end, are the text without quote marks and separating blanks. */
  lemma {:induction false} NothingIsLost(s: string)
    ensures Flatten(Words(s)) == Kept(s)
    ensures forall a :: a in Words(s) ==> a != ""
    decreases |s|
  {
    if s == "" {
    } else if Blank(s[0]) {
      NothingIsLost(s[1..]);
    } else {
      var (word, rest) := Word(s);
      WordKept(s);
      NothingIsLost(rest);
      if word != "" {
        assert ([word] + Words(rest))[1..] == Words(rest);
      } else {
        assert Emit(word) + Words(rest) == Words(rest);
      }
    }
  }

  lemma KeptClosed(s: string, t: string)
    requires s != "" && Mark(s[0]) && FindChar(s[1..], s[0]) < |s| - 1
    ensures var n := FindChar(s[1..], s[0]); Kept(s + t) == s[1..n + 1] + Kept(s[n + 2..] + t)
  {
    hide Kept;
    var n := FindChar(s[1..], s[0]);
    FindFirst(s[1..], s[0], t);
    Cut(s, t, 1, 1);
    Cut(s, t, 1, n + 1);
    Cut(s, t, 1, n + 2);
    KeptAtMark(s + t, n);
  }

  lemma KeptAtMark(s: string, n: nat)
    requires s != "" && Mark(s[0]) && n == FindChar(s[1..], s[0]) < |s| - 1
    ensures Kept(s) == s[1..n + 1] + Kept(s[n + 2..])
  {}

  lemma KeptUnclosed(s: string)
    requires s != "" && Mark(s[0]) && FindChar(s[1..], s[0]) == |s| - 1
    ensures Kept(s) == s[1..] && Kept(s + " ") == s[1..] + " "
  {
    Cut(s, " ", 1, 1);
    assert forall k :: 0 <= k < |s| - 1 ==> s[1..][k] != s[0];
    FindFirst(s[1..], s[0], " ");
  }

  lemma {:induction false} OpenKeepsBlank(s: string)
    requires EndsOpen(s)
    ensures Kept(s + " ") == Kept(s) + " "
    decreases |s|
  {
    if !Mark(s[0]) {
      Cut(s, " ", 1, 1);
      OpenKeepsBlank(s[1..]);
    } else if FindChar(s[1..], s[0]) < |s| - 1 {
      var n := FindChar(s[1..], s[0]);
      KeptClosed(s, " ");
      KeptClosed(s, "");
      assert s + "" == s && s[n + 2..] + "" == s[n + 2..];
      OpenKeepsBlank(s[n + 2..]);
    } else {
      KeptUnclosed(s);
    }
  }

  ghost predicate SplitsApart(s: string) {
    forall t :: Words(s + " " + t) == Words(s) + Words(t)
  }

  /** A text can be continued behind a blank without disturbing its arguments just when it ends outside a quote. */
  lemma ExactlyOutsideQuotes(s: string)
    ensures SplitsApart(s) <==> !EndsOpen(s)
  {
    if EndsOpen(s) {
      OpenKeepsBlank(s);
      NothingIsLost(s);
      NothingIsLost(s + " ");
      assert s + " " + "" == s + " ";
      assert Words(s) + Words("") == Words(s);
      assert Words(s + " " + "") != Words(s) + Words("");
    } else {
      forall t ensures Words(s + " " + t) == Words(s) + Words(t) {
        assert s + " " + t == s + (" " + t) && (" " + t)[1..] == t;
        SplitAtBlank(s, " " + t);
      }
    }
  }

  // ---------------------------------------------------------------- writing arguments down

  /** A way to write an argument: bare, or between two marks of a kind it does not contain. */
  datatype Written = Bare(text: string) | Quoted(mark: char, text: string) {
    predicate Ok() {
      if Bare? then forall c :: c in text ==> !Mark(c) && !Blank(c) else Mark(mark) && mark !in text
    }

    function Form(): string {
      if Bare? then text else [mark] + text + [mark]
    }
  }

  function Line(ws: seq<Written>): string {
    if ws == [] then "" else if |ws| == 1 then ws[0].Form() else ws[0].Form() + " " + Line(ws[1..])
  }

  function Texts(ws: seq<Written>): (r: seq<string>)
    ensures |r| == |ws| && forall i :: 0 <= i < |r| ==> r[i] == ws[i].text
  {
    if ws == [] then [] else [ws[0].text] + Texts(ws[1..])
  }

  function NonEmpty(args: seq<string>): seq<string> {
    if args == [] then [] else Emit(args[0]) + NonEmpty(args[1..])
  }

  lemma {:induction false} BareWord(s: string)
    requires forall c :: c in s ==> !Mark(c) && !Blank(c)
    ensures Word(s) == (s, "") && !EndsOpen(s)
  {
    if s != "" {
      BareWord(s[1..]);
      assert [s[0]] + s[1..] == s;
    }
  }

  lemma QuotedWord(mark: char, text: string)
    requires Mark(mark) && mark !in text
    ensures var s := [mark] + text + [mark]; Word(s) == (text, "") && !EndsOpen(s)
  {
    var s := [mark] + text + [mark];
    assert s[1..] == text + [mark] && s[|text| + 2..] == "";
    FindFirst(text, mark, [mark]);
    InsideEnds(mark, text);
  }

  lemma FormWord(w: Written)
    requires w.Ok()
    ensures Words(w.Form()) == Emit(w.text) && !EndsOpen(w.Form())
  {
    hide Word, Inside, EndsOpen, Words;
    if w.Bare? {
      BareWord(w.text);
    } else {
      QuotedWord(w.mark, w.text);
    }
    OneWord(w.Form());
  }

  lemma FirstText(ws: seq<Written>)
    requires ws != []
    ensures NonEmpty(Texts(ws)) == Emit(ws[0].text) + NonEmpty(Texts(ws[1..]))
  {
    assert Texts(ws)[1..] == Texts(ws[1..]);
  }

  /** One more form in front of a line. */
  lemma FormBefore(w: Written, line: string)
    requires w.Ok()
    ensures Words(w.Form() + " " + line) == Emit(w.text) + Words(line)
  {
    hide Word, EndsOpen;
    var form, rest := w.Form(), " " + line;
    FormWord(w);
    SplitAtBlank(form, rest);
    assert form + " " + line == form + rest && rest[1..] == line;
  }

  /** Writing arguments down and splitting the line gives them back, but for the empty ones. */
  lemma {:induction false} LineRoundTrip(ws: seq<Written>)
    requires forall w :: w in ws ==> w.Ok()
    ensures Words(Line(ws)) == NonEmpty(Texts(ws))
  {
    hide EndsOpen, Word, Emit, Words, Texts, NonEmpty;
    if ws == [] {
      EmptyLine();
    } else {
      FirstText(ws);
      LineRoundTrip(ws[1..]);
      if |ws| == 1 {
        FormWord(ws[0]);
        EmptyLine();
        assert ws[1..] == [];
      } else {
        FormBefore(ws[0], Line(ws[1..]));
      }
    }
  }

  lemma EmptyLine()
    ensures Words("") == [] == NonEmpty(Texts([]))
  {}

  lemma {:induction false} NonEmptySame(args: seq<string>)
    ensures NonEmpty(args) == args <==> "" !in args
    ensures |NonEmpty(args)| <= |args|
  {
    if args != [] {
      NonEmptySame(args[1..]);
      assert args == [args[0]] + args[1..];
      if args[0] == "" {
        assert Emit(args[0]) + NonEmpty(args[1..]) == NonEmpty(args[1..]);
      }
    }
  }

  /** So the round trip is exact just when no argument is empty. */
  lemma ExactRoundTrip(ws: seq<Written>)
    requires forall w :: w in ws ==> w.Ok()
    ensures Words(Line(ws)) == Texts(ws) <==> "" !in Texts(ws)
  {
    LineRoundTrip(ws);
    NonEmptySame(Texts(ws));
  }

  // ---------------------------------------------------------------- every list of arguments can be written

  /** Each byte between marks of the other kind. */
  function Spelled(arg: string): string {
    if arg == "" then ""
    else (if arg[0] == '"' then ['\'', '"', '\''] else ['"', arg[0], '"']) + Spelled(arg[1..])
  }

  function SpelledLine(args: seq<string>): string {
    if args == [] then "" else Spelled(args[0]) + " " + SpelledLine(args[1..])
  }

  lemma {:induction false} SpelledWord(arg: string)
    ensures Word(Spelled(arg)) == (arg, "") && !EndsOpen(Spelled(arg))
  {
    if arg != "" {
      SpelledWord(arg[1..]);
      var s := Spelled(arg);
      assert s[1..][0] == arg[0] && s[1..][1] == s[0];
      assert FindChar(s[1..], s[0]) == 1;
      assert s[1..][2..] == Spelled(arg[1..]) == s[3..] && s[1..][..1] == [arg[0]];
      assert [arg[0]] + arg[1..] == arg;
    }
  }

  /** Exactly the lists without empty arguments are results of splitting, also with both marks in one argument. */
  lemma {:induction false} EveryListCanBeWritten(args: seq<string>)
    ensures "" !in args <==> exists s :: Words(s) == args
  {
    if "" !in args {
      SpelledLineSplits(args);
      assert Words(SpelledLine(args)) == args;
    }
    if s :| Words(s) == args {
      NothingIsLost(s);
    }
  }

  lemma {:induction false} SpelledLineSplits(args: seq<string>)
    requires "" !in args
    ensures Words(SpelledLine(args)) == args
  {
    hide Word, Inside, EndsOpen;
    if args != [] {
      var first, rest := Spelled(args[0]), " " + SpelledLine(args[1..]);
      SpelledWord(args[0]);
      SpelledLineSplits(args[1..]);
      OneWord(first);
      assert SpelledLine(args) == first + rest && rest[1..] == SpelledLine(args[1..]);
      SplitAtBlank(first, rest);
    }
  }
}
