/**
  The command-line tokenizer of TextHelper: words separated by white space, where a phrase in
  double quotes is one argument.
 */
module QuotedArguments {
  import opened Wrappers

  // ----- reading words from a string stream -----

  predicate Blank(c: char) {
    c in {' ', '\t', '\n', '\r', '\U{B}', '\U{C}'}
  }

  /** The white space of the classic locale, by code point: tab to carriage return, and the space. */
  lemma BlankExactly(c: char)
    ensures Blank(c) <==> c as int == 32 || 9 <= c as int <= 13
  {
    assert '\t' as int == 9 && '\n' as int == 10 && '\r' as int == 13 && ' ' as int == 32;
    assert '\U{B}' as int == 11 && '\U{C}' as int == 12;
    assert c as int == 9 ==> c == '\t';
    assert c as int == 10 ==> c == '\n';
    assert c as int == 11 ==> c == '\U{B}';
    assert c as int == 12 ==> c == '\U{C}';
    assert c as int == 13 ==> c == '\r';
    assert c as int == 32 ==> c == ' ';
  }

  predicate IsWord(w: string) {
    w != [] && forall i | 0 <= i < |w| :: !Blank(w[i])
  }

  predicate IsGap(g: string) {
    forall i | 0 <= i < |g| :: Blank(g[i])
  }

  /** What is left behind the leading white space. */
  function SkipBlanks(s: string): (r: string)
    ensures |r| <= |s| && (r != [] ==> !Blank(r[0]))
  {
    if s != [] && Blank(s[0]) then SkipBlanks(s[1..]) else s
  }

  /** The leading run of other characters. */
  function FirstWord(s: string): (w: string)
    ensures w <= s && (s != [] && !Blank(s[0]) ==> IsWord(w))
  {
    if s == [] || Blank(s[0]) then []
    else
      var w := FirstWord(s[1..]);
      assert forall i | 0 <= i < |[s[0]] + w| :: !Blank(([s[0]] + w)[i]) by {
        assert s[1..] == [] || Blank(s[1..][0]) ==> w == [];
      }
      [s[0]] + w
  }

  /** The words `stream >> word` yields until it fails. */
  function Words(s: string): seq<string>
    decreases |s|
  {
    var t := SkipBlanks(s);
    if t == [] then []
    else [FirstWord(t)] + Words(t[|FirstWord(t)|..])
  }

  // ----- the tokenizer -----

  datatype State = State(res: seq<string>, flag: bool)

  /** `res.back() += ' ' + temp`. */
  function AppendToLast(res: seq<string>, temp: string): seq<string>
    requires res != []
  {
    res[|res| - 1 := res[|res| - 1] + [' '] + temp]
  }

  predicate Opens(w: string) {
    w != [] && w[0] == '"'
  }

  predicate Closes(w: string) {
    w != [] && w[|w| - 1] == '"'
  }

  /** One word; None is `back()` of an empty vector, which is undefined behaviour. */
  function Step(st: State, w: string): Option<State>
    requires w != []
  {
    if Opens(w) then Some(State(st.res + [w[1..]], true))
    else if Closes(w) then
      if st.res == [] then None else Some(State(AppendToLast(st.res, w[..|w| - 1]), false))
    else if st.flag then
      if st.res == [] then None else Some(State(AppendToLast(st.res, w), true))
    else Some(State(st.res + [w], false))
  }

  predicate AllNonempty(ws: seq<string>) {
    forall i | 0 <= i < |ws| :: ws[i] != []
  }

  function Run(st: State, ws: seq<string>): Option<State>
    requires AllNonempty(ws)
    decreases |ws|
  {
    if ws == [] then Some(st)
    else match Step(st, ws[0])
      case None => None
      case Some(st') => Run(st', ws[1..])
  }

  lemma {:induction false} WordsNonempty(s: string)
    ensures forall i | 0 <= i < |Words(s)| :: IsWord(Words(s)[i])
    decreases |s|
  {
    var t := SkipBlanks(s);
    if t != [] { WordsNonempty(t[|FirstWord(t)|..]); }
  }

  /** The arguments in a command line. */
  function Arguments(s: string): Option<seq<string>> {
    WordsNonempty(s);
    match Run(State([], false), Words(s))
    case None => None
    case Some(st) => Some(st.res)
  }

  method SplitByBlankWithSkipBlank(str: string) returns (out: Option<seq<string>>)
    ensures out == Arguments(str)
  {
    var st := State([], false);
    var ss := SkipBlanks(str);
    WordsNonempty(str);
    assert Words(ss) == Words(str);
    while ss != []
      invariant ss == SkipBlanks(ss)
      invariant AllNonempty(Words(ss)) && Run(st, Words(ss)) == Run(State([], false), Words(str))
      decreases |ss|
    {
      var temp := FirstWord(ss);
      var rest := ss[|temp|..];
      assert Words(ss) == [temp] + Words(rest);
      assert Words(ss)[1..] == Words(rest);
      WordsNonempty(rest);
      if temp[0] == '"' {
        st := State(st.res + [temp[1..]], true);
      } else if temp[|temp| - 1] == '"' {
        if st.res == [] { return None; }
        st := State(AppendToLast(st.res, temp[..|temp| - 1]), false);
      } else if st.flag {
        if st.res == [] { return None; }
        st := st.(res := AppendToLast(st.res, temp));
      } else {
        st := st.(res := st.res + [temp]);
      }
      ss := SkipBlanks(rest);
    }
    return Some(st.res);
  }

  /** The only undefined case: the first word ends in a quote without starting with one. */
  lemma UndefinedExactly(s: string)
    ensures Arguments(s) == None <==> Words(s) != [] && Closes(Words(s)[0]) && !Opens(Words(s)[0])
  {
    WordsNonempty(s);
    if Words(s) != [] && !(Closes(Words(s)[0]) && !Opens(Words(s)[0])) {
      RunGrows(Step(State([], false), Words(s)[0]).value, Words(s)[1..], 0);
    }
  }

  /** Once there is an argument the run is defined; arguments are only added or made longer. */
  lemma {:induction false} RunGrows(st: State, ws: seq<string>, k: nat)
    requires AllNonempty(ws) && k < |st.res|
    ensures Run(st, ws).Some? && k < |Run(st, ws).value.res| && |st.res[k]| <= |Run(st, ws).value.res[k]|
    decreases |ws|
  {
    if ws != [] {
      RunGrows(Step(st, ws[0]).value, ws[1..], k);
    }
  }

  // ----- white space between the words does not matter -----

  /** Words with `gaps[0]` before the first, `gaps[i]` after the i-th. */
  function Layout(ws: seq<string>, gaps: seq<string>): string
    requires |gaps| == |ws| + 1
  {
    if ws == [] then gaps[0] else gaps[0] + (ws[0] + Layout(ws[1..], gaps[1..]))
  }

  /** White space only, and some of it between any two words. */
  predicate Separates(ws: seq<string>, gaps: seq<string>) {
    && |gaps| == |ws| + 1
    && (forall i | 0 <= i < |gaps| :: IsGap(gaps[i]))
    && (forall i | 0 < i < |ws| :: gaps[i] != [])
  }

  lemma {:induction false} SkipGap(g: string, s: string)
    requires IsGap(g)
    ensures SkipBlanks(g + s) == SkipBlanks(s)
  {
    if g == [] {
      assert g + s == s;
    } else {
      assert (g + s)[1..] == g[1..] + s;
      SkipGap(g[1..], s);
    }
  }

  lemma {:induction false} FirstWordIs(w: string, s: string)
    requires (forall i | 0 <= i < |w| :: !Blank(w[i])) && (s == [] || Blank(s[0]))
    ensures FirstWord(w + s) == w
  {
    if w == [] {
      assert w + s == s;
    } else {
      assert (w + s)[1..] == w[1..] + s;
      FirstWordIs(w[1..], s);
    }
  }

  lemma {:induction false} WordsOfLayout(ws: seq<string>, gaps: seq<string>)
    requires Separates(ws, gaps) && forall i | 0 <= i < |ws| :: IsWord(ws[i])
    ensures Words(Layout(ws, gaps)) == ws
    decreases |ws|
  {
    if ws == [] {
      SkipGap(gaps[0], []);
      assert gaps[0] + [] == gaps[0];
    } else {
      var w, rest := ws[0], Layout(ws[1..], gaps[1..]);
      SkipGap(gaps[0], w + rest);
      assert (w + rest)[0] == w[0];
      assert rest == [] || Blank(rest[0]) by {
        if |ws| > 1 { assert gaps[1] != [] && rest[0] == gaps[1][0]; }
        else { assert rest == gaps[1]; }
      }
      FirstWordIs(w, rest);
      assert (w + rest)[|w|..] == rest;
      WordsOfLayout(ws[1..], gaps[1..]);
    }
  }

  // ----- any words at all, told by where each argument begins -----

  /** The word without the quote that opens it, or else without the one that closes it. */
  function Bare(w: string): string {
    if Opens(w) then w[1..] else if Closes(w) then w[..|w| - 1] else w
  }

  /** Some word opens a phrase and no later one only closes it. */
  predicate InPhrase(ws: seq<string>) {
    exists i | 0 <= i < |ws| :: Opens(ws[i]) && forall j | i < j < |ws| :: Opens(ws[j]) || !Closes(ws[j])
  }

  /** Word k begins an argument: it opens a phrase, or stands outside of one and closes none. */
  predicate Begins(ws: seq<string>, k: nat)
    requires k < |ws|
  {
    Opens(ws[k]) || (!Closes(ws[k]) && !InPhrase(ws[..k]))
  }

  /** The arguments: each from the word that begins it up to the next that does, with single spaces. */
  function Gathered(ws: seq<string>): seq<string> {
    if ws == [] then []
    else
      var before, n := Gathered(ws[..|ws| - 1]), |ws| - 1;
      if Begins(ws, n) || before == [] then before + [Bare(ws[n])]
      else before[..|before| - 1] + [before[|before| - 1] + " " + Bare(ws[n])]
  }

  lemma InPhraseOneMore(ws: seq<string>, w: string)
    ensures InPhrase(ws + [w]) <==> Opens(w) || (!Closes(w) && InPhrase(ws))
  {
    var all := ws + [w];
    assert all[|ws|] == w && forall i | 0 <= i < |ws| :: all[i] == ws[i];
    if InPhrase(ws) && !Closes(w) {
      var i :| 0 <= i < |ws| && Opens(ws[i]) && forall j | i < j < |ws| :: Opens(ws[j]) || !Closes(ws[j]);
      assert Opens(all[i]);
    }
    if InPhrase(all) && !Opens(w) {
      var i :| 0 <= i < |all| && Opens(all[i]) && forall j | i < j < |all| :: Opens(all[j]) || !Closes(all[j]);
      assert Opens(ws[i]);
    }
  }

  lemma RunOneMore(st: State, ws: seq<string>, w: string)
    requires AllNonempty(ws) && w != []
    ensures Run(st, ws + [w]) == match Run(st, ws) { case None => None case Some(st') => Step(st', w) }
  {
    RunConcat(st, ws, [w]);
    assert [w][1..] == [];
  }

  lemma AppendIs(res: seq<string>, temp: string)
    requires res != []
    ensures AppendToLast(res, temp) == res[..|res| - 1] + [res[|res| - 1] + " " + temp]
  {
  }

  lemma {:induction false} RunGathers(ws: seq<string>)
    requires AllNonempty(ws) && ws != [] && Begins(ws, 0)
    ensures Gathered(ws) != []
    ensures Run(State([], false), ws) == Some(State(Gathered(ws), InPhrase(ws)))
    decreases |ws|
  {
    var n := |ws| - 1;
    var before, w := ws[..n], ws[n];
    assert ws == before + [w];
    InPhraseOneMore(before, w);
    RunOneMore(State([], false), before, w);
    assert before[..0] == ws[..0];
    if n > 0 {
      RunGathers(before);
      AppendIs(Gathered(before), Bare(w));
    }
  }

  /**
    Every command line: it is undefined exactly when its first word begins no argument, and
    otherwise its words are gathered into arguments.
   */
  lemma ArgumentsAreGathered(s: string)
    ensures Arguments(s) ==
              if Words(s) != [] && !Begins(Words(s), 0) then None else Some(Gathered(Words(s)))
  {
    WordsNonempty(s);
    if Words(s) != [] {
      if Begins(Words(s), 0) {
        RunGathers(Words(s));
      } else {
        UndefinedExactly(s);
      }
    }
  }

  /** A closing quote with no phrase open joins its word to the argument before it, and opens nothing. */
  lemma StrayClosingQuote(ws: seq<string>, w: string)
    requires Gathered(ws) != [] && !InPhrase(ws) && Closes(w) && !Opens(w)
    ensures !InPhrase(ws + [w])
    ensures
      var last := |Gathered(ws)| - 1;
      Gathered(ws + [w]) == Gathered(ws)[..last] + [Gathered(ws)[last] + " " + w[..|w| - 1]]
  {
    InPhraseOneMore(ws, w);
    assert (ws + [w])[..|ws|] == ws;
  }

  // ----- quoting -----

  datatype Item = Plain(word: string) | Phrase(words: seq<string>)

  /** A word with no quote at either end. */
  predicate PlainWord(w: string) {
    IsWord(w) && !Opens(w) && !Closes(w)
  }

  predicate PlainWords(ws: seq<string>) {
    forall i | 0 <= i < |ws| :: PlainWord(ws[i])
  }

  predicate ValidItem(item: Item) {
    match item
    case Plain(w) => PlainWord(w)
    case Phrase(ws) => ws != [] && PlainWords(ws)
  }

  predicate ValidItems(items: seq<Item>) {
    forall i | 0 <= i < |items| :: ValidItem(items[i])
  }

  /** The last word gets the closing quote. */
  function Closed(ws: seq<string>): seq<string>
    requires ws != []
  {
    if |ws| == 1 then [ws[0] + ['"']] else [ws[0]] + Closed(ws[1..])
  }

  /** An item as words: a phrase between double quotes. */
  function Written(item: Item): seq<string>
    requires ValidItem(item)
  {
    match item
    case Plain(w) => [w]
    case Phrase(ws) => var c := Closed(ws); [['"'] + c[0]] + c[1..]
  }

  function WrittenAll(items: seq<Item>): seq<string>
    requires ValidItems(items)
  {
    if items == [] then [] else Written(items[0]) + WrittenAll(items[1..])
  }

  function Spaced(first: string, ws: seq<string>): string
    decreases |ws|
  {
    if ws == [] then first else Spaced(first + [' '] + ws[0], ws[1..])
  }

  /** The argument an item stands for: a phrase with single spaces. */
  function Meaning(item: Item): string
    requires ValidItem(item)
  {
    match item
    case Plain(w) => w
    case Phrase(ws) => Spaced(ws[0], ws[1..])
  }

  function Meanings(items: seq<Item>): (r: seq<string>)
    requires ValidItems(items)
    ensures |r| == |items|
  {
    if items == [] then [] else [Meaning(items[0])] + Meanings(items[1..])
  }

  predicate SingleWordPhrase(item: Item) {
    item.Phrase? && |item.words| == 1
  }

  lemma {:induction false} RunConcat(st: State, a: seq<string>, b: seq<string>)
    requires AllNonempty(a) && AllNonempty(b)
    ensures AllNonempty(a + b)
    ensures Run(st, a + b) == match Run(st, a) { case None => None case Some(st') => Run(st', b) }
    decreases |a|
  {
    if a == [] {
      assert a + b == b;
    } else {
      assert (a + b)[1..] == a[1..] + b;
      match Step(st, a[0]) {
        case None =>
        case Some(st') => RunConcat(st', a[1..], b);
      }
    }
  }

  lemma {:induction false} ClosedWords(ws: seq<string>)
    requires ws != [] && PlainWords(ws)
    ensures |Closed(ws)| == |ws| && forall i | 0 <= i < |ws| :: IsWord(Closed(ws)[i]) && !Opens(Closed(ws)[i])
  {
    if |ws| > 1 { ClosedWords(ws[1..]); }
  }

  lemma WrittenWords(item: Item)
    requires ValidItem(item)
    ensures forall i | 0 <= i < |Written(item)| :: IsWord(Written(item)[i])
    ensures AllNonempty(Written(item))
  {
    if item.Phrase? { ClosedWords(item.words); }
  }

  lemma {:induction false} WrittenAllWords(items: seq<Item>)
    requires ValidItems(items)
    ensures forall i | 0 <= i < |WrittenAll(items)| :: IsWord(WrittenAll(items)[i])
    ensures AllNonempty(WrittenAll(items))
  {
    if items != [] {
      WrittenWords(items[0]);
      WrittenAllWords(items[1..]);
    }
  }

  /** Inside a phrase every word is appended; the quoted last one ends it. */
  lemma {:induction false} RunClosed(res: seq<string>, first: string, ws: seq<string>)
    requires ws != [] && PlainWords(ws)
    ensures AllNonempty(Closed(ws))
    ensures Run(State(res + [first], true), Closed(ws)) == Some(State(res + [Spaced(first, ws)], false))
    decreases |ws|
  {
    ClosedWords(ws);
    var st, c := State(res + [first], true), Closed(ws);
    if |ws| == 1 {
      assert c[0][..|c[0]| - 1] == ws[0];
      assert AppendToLast(st.res, ws[0]) == res + [first + [' '] + ws[0]];
      assert c[1..] == [];
    } else {
      assert c[0] == ws[0] && c[1..] == Closed(ws[1..]);
      assert AppendToLast(st.res, ws[0]) == res + [first + [' '] + ws[0]];
      RunClosed(res, first + [' '] + ws[0], ws[1..]);
    }
  }

  lemma RunItem(res: seq<string>, item: Item)
    requires ValidItem(item) && !SingleWordPhrase(item)
    ensures AllNonempty(Written(item))
    ensures Run(State(res, false), Written(item)) == Some(State(res + [Meaning(item)], false))
  {
    WrittenWords(item);
    match item {
      case Plain(w) =>
      case Phrase(ws) =>
        var c := Closed(ws);
        ClosedWords(ws);
        assert c[0] == ws[0] && c[1..] == Closed(ws[1..]);
        assert (['"'] + ws[0])[1..] == ws[0];
        RunClosed(res, ws[0], ws[1..]);
        assert Written(item)[1..] == Closed(ws[1..]);
    }
  }

  /** A phrase of one word keeps its closing quote, and what follows is taken to be inside it. */
  lemma RunSingleWordPhrase(res: seq<string>, item: Item)
    requires ValidItem(item) && SingleWordPhrase(item)
    ensures AllNonempty(Written(item))
    ensures Run(State(res, false), Written(item)) == Some(State(res + [Meaning(item) + ['"']], true))
  {
    WrittenWords(item);
    var w := item.words[0];
    assert Written(item) == [['"'] + (w + ['"'])];
    assert (['"'] + (w + ['"']))[1..] == w + ['"'];
    assert Written(item)[1..] == [];
  }

  lemma {:induction false} RunItems(res: seq<string>, items: seq<Item>)
    requires ValidItems(items)
    ensures AllNonempty(WrittenAll(items))
    ensures (forall i | 0 <= i < |items| :: !SingleWordPhrase(items[i])) ==>
            Run(State(res, false), WrittenAll(items)) == Some(State(res + Meanings(items), false))
    ensures (exists i | 0 <= i < |items| :: SingleWordPhrase(items[i])) ==>
            Run(State(res, false), WrittenAll(items)).Some? &&
            Run(State(res, false), WrittenAll(items)).value.res != res + Meanings(items)
    decreases |items|
  {
    WrittenAllWords(items);
    if items == [] {
      assert res + [] == res;
    } else {
      var item, rest := items[0], items[1..];
      WrittenWords(item);
      WrittenAllWords(rest);
      RunConcat(State(res, false), Written(item), WrittenAll(rest));
      assert res + Meanings(items) == res + [Meaning(item)] + Meanings(rest);
      if SingleWordPhrase(item) {
        RunSingleWordPhrase(res, item);
        var st := State(res + [Meaning(item) + ['"']], true);
        RunGrows(st, WrittenAll(rest), |res|);
        assert (res + Meanings(items))[|res|] == Meaning(item);
      } else {
        RunItem(res, item);
        RunItems(res + [Meaning(item)], rest);
      }
    }
  }

  /**
    The tokenizer inverts quoting, whatever white space separates the words, exactly when no
    phrase in quotes is a single word.
   */
  lemma ArgumentsInvertQuoting(items: seq<Item>, gaps: seq<string>)
    requires ValidItems(items) && Separates(WrittenAll(items), gaps)
    ensures Arguments(Layout(WrittenAll(items), gaps)) == Some(Meanings(items)) <==>
            forall i | 0 <= i < |items| :: !SingleWordPhrase(items[i])
  {
    WrittenAllWords(items);
    WordsOfLayout(WrittenAll(items), gaps);
    RunItems([], items);
    assert [] + Meanings(items) == Meanings(items);
  }

  /** The failing case at its smallest: a quoted single word keeps a quote and swallows the next word. */
  lemma SingleWordPhraseSwallows()
    ensures Arguments("\"a\" b") == Some(["a\" b"])
  {
    var items := [Phrase(["a"]), Plain("b")];
    assert PlainWord("a") && PlainWord("b");
    var words, gaps := ["\"a\"", "b"], ["", " ", ""];
    assert IsWord(words[0]) && IsWord(words[1]);
    assert Layout(words[1..], gaps[1..]) == " b" by {
      assert Layout(words[1..][1..], gaps[1..][1..]) == "";
    }
    assert Layout(words, gaps) == "\"a\" b";
    WordsOfLayout(words, gaps);
    assert "\"a\""[1..] == "a\"";
    assert [] + ["a\""] == ["a\""];
    assert Step(State([], false), "\"a\"") == Some(State(["a\""], true));
    assert "a\"" + [' '] + "b" == "a\" b";
    assert AppendToLast(["a\""], "b") == ["a\" b"];
    assert Step(State(["a\""], true), "b") == Some(State(["a\" b"], true));
    assert words[1..] == ["b"] && ["b"][1..] == [];
  }

  /** The undefined case at its smallest: the code appends to the back of an empty vector. */
  lemma ClosingQuoteFirst()
    ensures Arguments("a\"") == None
  {
    assert Words("a\"") == ["a\""] by {
      assert FirstWord("a\"") == "a\"";
    }
    UndefinedExactly("a\"");
  }
}
