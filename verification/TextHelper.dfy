/** The string splitters of TextHelper: what they return, and what their results can be turned back into. */
module TextHelper {
  import opened Wrappers

  // ----- occurrences of a pattern -----

  predicate OccursAt(s: string, p: string, i: nat) {
    i + |p| <= |s| && s[i..i + |p|] == p
  }

  predicate Occurs(s: string, p: string) {
    exists i | 0 <= i <= |s| :: OccursAt(s, p, i)
  }

  /** The first occurrence at place i or behind it. */
  function FindFrom(s: string, p: string, i: nat): (r: Option<nat>)
    requires i <= |s|
    ensures r.Some? ==> i <= r.value && OccursAt(s, p, r.value) && forall j | i <= j < r.value :: !OccursAt(s, p, j)
    ensures r.None? ==> forall j | i <= j <= |s| :: !OccursAt(s, p, j)
    decreases |s| - i
  {
    if OccursAt(s, p, i) then Some(i)
    else if i == |s| then None
    else FindFrom(s, p, i + 1)
  }

  /** `std::string::find`: the first occurrence. */
  function Find(s: string, p: string): (r: Option<nat>)
    ensures r.Some? ==> OccursAt(s, p, r.value) && forall j | 0 <= j < r.value :: !OccursAt(s, p, j)
    ensures r.None? ==> !Occurs(s, p)
  {
    FindFrom(s, p, 0)
  }

  lemma OccursInTail(s: string, p: string, n: nat, j: nat)
    requires n <= |s|
    ensures OccursAt(s[n..], p, j) <==> OccursAt(s, p, j + n)
  {
    if j + n + |p| <= |s| {
      assert s[n..][j..j + |p|] == s[j + n..j + n + |p|];
    }
  }

  /** A first occurrence is the only index that can be one. */
  lemma FindIs(s: string, p: string, i: nat)
    requires OccursAt(s, p, i) && forall j | 0 <= j < i :: !OccursAt(s, p, j)
    ensures Find(s, p) == Some(i)
  {
    assert Occurs(s, p);
  }

  /** Text behind an occurrence does not change where the first one is. */
  lemma FindInPrefix(s: string, p: string, rest: string)
    requires Find(s, p).Some?
    ensures Find(s + rest, p) == Find(s, p)
  {
    var i := Find(s, p).value;
    forall j: nat | j <= i
      ensures OccursAt(s + rest, p, j) <==> OccursAt(s, p, j)
    {
      assert (s + rest)[j..j + |p|] == s[j..j + |p|];
    }
    FindIs(s + rest, p, i);
  }

  function Join(tokens: seq<string>, sep: string): string {
    if tokens == [] then ""
    else if |tokens| == 1 then tokens[0]
    else tokens[0] + sep + Join(tokens[1..], sep)
  }

  // ----- splitMulti -----

  function Tokens(s: string, p: string): (tokens: seq<string>)
    requires p != []
    ensures tokens != []
    decreases |s|
  {
    match Find(s, p)
    case None => [s]
    case Some(pos) => [s[..pos]] + Tokens(s[pos + |p|..], p)
  }

  /** A token list that can be told apart in its join: `p` ends each token but the last, and never earlier. */
  predicate Separable(tokens: seq<string>, p: string) {
    && tokens != []
    && !Occurs(tokens[|tokens| - 1], p)
    && forall i | 0 <= i < |tokens| - 1 :: Find(tokens[i] + p, p) == Some(|tokens[i]|)
  }

  method SplitMulti(str: string, pattern: string) returns (tokens: seq<string>)
    requires pattern != []
    ensures tokens == Tokens(str, pattern)
  {
    hide Find;
    tokens := [];
    var text := str;
    var pos := Find(text, pattern);
    while pos.Some?
      invariant pos == Find(text, pattern)
      invariant tokens + Tokens(text, pattern) == Tokens(str, pattern)
      decreases |text|
    {
      var token := text[..pos.value];
      text := text[pos.value + |pattern|..];
      tokens := tokens + [token];
      pos := Find(text, pattern);
    }
    tokens := tokens + [text];
  }

  /** Joining the tokens gives the text back. */
  lemma {:induction false} JoinTokens(s: string, p: string)
    requires p != []
    ensures Join(Tokens(s, p), p) == s
    decreases |s|
  {
    match Find(s, p) {
      case None =>
      case Some(pos) =>
        var rest := s[pos + |p|..];
        JoinTokens(rest, p);
        var tokens := Tokens(s, p);
        assert tokens[1..] == Tokens(rest, p);
        assert s == s[..pos] + s[pos..pos + |p|] + rest;
    }
  }

  lemma FindEndsToken(s: string, p: string)
    requires Find(s, p).Some?
    ensures Find(s[..Find(s, p).value] + p, p) == Find(s, p)
  {
    var pos := Find(s, p).value;
    assert pos + |p| <= |s| && s[pos..pos + |p|] == p;
    hide Find, OccursAt;
    var t, rest := s[..pos] + p, s[pos + |p|..];
    EndsWithItself(s[..pos], p);
    EndOccurs(t, p);
    FindInPrefix(t, p, rest);
    assert t + rest == s;
  }

  lemma {:induction false} TokensSeparable(s: string, p: string)
    requires p != []
    ensures Separable(Tokens(s, p), p)
    decreases |s|
  {
    hide Occurs;
    hide Find;
    match Find(s, p) {
      case None =>
      case Some(pos) =>
        var rest := s[pos + |p|..];
        TokensSeparable(rest, p);
        FindEndsToken(s, p);
        assert Tokens(s, p) == [s[..pos]] + Tokens(rest, p);
    }
  }

  lemma {:induction false} TokensOfJoin(tokens: seq<string>, p: string)
    requires p != [] && Separable(tokens, p)
    ensures Tokens(Join(tokens, p), p) == tokens
    decreases |tokens|
  {
    if |tokens| == 1 {
      assert Find(tokens[0], p) == None;
    } else {
      hide Find;
      var t, rest := tokens[0], Join(tokens[1..], p);
      TokensOfJoin(tokens[1..], p);
      FindInPrefix(t + p, p, rest);
      var s := t + p + rest;
      assert s[..|t|] == t && s[|t| + |p|..] == rest;
      assert tokens == [t] + tokens[1..];
    }
  }

  /** `splitMulti` is the inverse of joining, on exactly the lists that can be told apart. */
  lemma TokensInvertJoin(s: string, p: string, tokens: seq<string>)
    requires p != []
    ensures tokens == Tokens(s, p) <==> Separable(tokens, p) && Join(tokens, p) == s
  {
    JoinTokens(s, p);
    TokensSeparable(s, p);
    if Separable(tokens, p) && Join(tokens, p) == s {
      TokensOfJoin(tokens, p);
    }
  }

  lemma OccursInFront(t: string, p: string, j: nat)
    requires p != [] && j <= |t|
    ensures OccursAt(t, p, j) ==> OccursAt(t + p, p, j) && j < |t|
  {
    if j + |p| <= |t| {
      assert (t + p)[j..j + |p|] == t[j..j + |p|];
    }
  }

  /** No token contains the pattern. */
  lemma TokensAreFree(s: string, p: string, i: nat)
    requires p != [] && i < |Tokens(s, p)|
    ensures !Occurs(Tokens(s, p)[i], p)
  {
    TokensSeparable(s, p);
    var t := Tokens(s, p)[i];
    if i < |Tokens(s, p)| - 1 {
      forall j | 0 <= j <= |t|
        ensures !OccursAt(t, p, j)
      {
        OccursInFront(t, p, j);
      }
    }
  }

  // ----- split -----

  /** What is pushed while `strs` still holds the pattern; only one character is dropped after a token. */
  function Pieces(strs: string, p: string): seq<string>
    requires p != []
    decreases |strs|
  {
    match Find(strs, p)
    case None => []
    case Some(pos) => [strs[..pos]] + Pieces(strs[pos + 1..], p)
  }

  /**
    An empty pattern makes `substr` throw std::out_of_range (None) unless the text is empty.
    `left` is the unconsumed text at the end.
   */
  method Split(str: string, pattern: string) returns (res: Option<seq<string>>, ghost left: string)
    ensures res == None <==> str != [] && pattern == []
    ensures str == [] ==> res == Some([])
    ensures str != [] && pattern != [] ==> res == Some(Pieces(str + pattern, pattern)) && left == pattern[1..]
  {
    hide Find;
    left := "";
    if str == [] { return Some([]), left; }
    var tokens: seq<string> := [];
    var strs := str + pattern;
    if pattern != [] { EndsWithItself(str, pattern); } else { EmptyOccurs(strs); }
    var pos := Find(strs, pattern);
    while pos.Some?
      invariant pos == Find(strs, pattern)
      invariant pattern == [] ==> pos.Some?
      invariant pattern != [] ==> tokens + Pieces(strs, pattern) == Pieces(str + pattern, pattern)
      invariant pattern != [] ==> EndsWith(strs, pattern) || strs == pattern[1..]
      decreases |strs|
    {
      var temp := strs[..pos.value];
      tokens := tokens + [temp];
      if pos.value + 1 > |strs| { return None, left; }
      if pattern != [] { TailEndsWith(strs, pattern); } else { EmptyOccurs(strs[pos.value + 1..]); }
      strs := strs[pos.value + 1..];
      pos := Find(strs, pattern);
    }
    if EndsWith(strs, pattern) { EndOccurs(strs, pattern); }
    assert pattern != [] ==> tokens + Pieces(strs, pattern) == tokens;
    return Some(tokens), strs;
  }

  predicate EndsWith(s: string, p: string) {
    |p| <= |s| && s[|s| - |p|..] == p
  }

  lemma EndsWithItself(s: string, p: string)
    ensures EndsWith(s + p, p)
  {}

  lemma EndOccurs(s: string, p: string)
    requires EndsWith(s, p)
    ensures OccursAt(s, p, |s| - |p|) && Find(s, p).Some? && Find(s, p).value <= |s| - |p|
  {
    hide Find;
    assert OccursAt(s, p, |s| - |p|);
  }

  lemma EmptyOccurs(s: string)
    ensures Find(s, "") == Some(0)
  {}

  /** One more token leaves a text that still ends with the pattern, or the pattern's own tail. */
  lemma TailEndsWith(s: string, p: string)
    requires p != [] && Find(s, p).Some? && (EndsWith(s, p) || s == p[1..])
    ensures EndsWith(s, p)
    ensures var rest := s[Find(s, p).value + 1..]; EndsWith(rest, p) || rest == p[1..]
  {
    hide Find;
    var pos := Find(s, p).value;
    EndOccurs(s, p);
    var rest := s[pos + 1..];
    if pos < |s| - |p| {
      assert rest[|rest| - |p|..] == s[|s| - |p|..];
    } else {
      assert rest == s[|s| - |p|..][1..];
    }
  }

  /** All positions from `from` on where the pattern occurs, overlapping ones included. */
  function Positions(w: string, p: string, from: nat): (ps: seq<nat>)
    decreases |w| - from
  {
    if from >= |w| then []
    else (if OccursAt(w, p, from) then [from] else []) + Positions(w, p, from + 1)
  }

  /** `Positions` lists exactly the occurrences, in increasing order. */
  lemma {:induction false} PositionsAreOccurrences(w: string, p: string, from: nat)
    requires p != []
    ensures forall i: nat :: i in Positions(w, p, from) <==> from <= i && OccursAt(w, p, i)
    decreases |w| - from
  {
    if from < |w| {
      PositionsAreOccurrences(w, p, from + 1);
      hide OccursAt;
      var ps := Positions(w, p, from + 1);
      if OccursAt(w, p, from) {
        assert Positions(w, p, from) == [from] + ps;
      } else {
        assert Positions(w, p, from) == ps;
      }
    }
  }

  lemma {:induction false} PositionsIncrease(w: string, p: string, from: nat)
    ensures forall i | 0 <= i < |Positions(w, p, from)| :: from <= Positions(w, p, from)[i] < |w|
    ensures forall i, j | 0 <= i < j < |Positions(w, p, from)| :: Positions(w, p, from)[i] < Positions(w, p, from)[j]
    decreases |w| - from
  {
    hide OccursAt;
    if from < |w| {
      PositionsIncrease(w, p, from + 1);
    }
  }

  /** Cutting `w` before each position and dropping the character there. */
  function Cuts(w: string, from: nat, ps: seq<nat>): seq<string>
    decreases |ps|
  {
    if ps == [] then []
    else (if from <= ps[0] < |w| then [w[from..ps[0]]] + Cuts(w, ps[0] + 1, ps[1..]) else [])
  }

  lemma {:induction false} PositionsSkip(w: string, p: string, from: nat, n: nat)
    requires forall i: nat | from <= i < from + n :: !OccursAt(w, p, i)
    ensures Positions(w, p, from) == Positions(w, p, from + n)
    decreases n
  {
    hide OccursAt;
    if n > 0 {
      assert !OccursAt(w, p, from);
      PositionsSkip(w, p, from + 1, n - 1);
    }
  }

  /** The tokens of `split` are the stretches between successive, possibly overlapping occurrences. */
  lemma {:induction false} PiecesAreCuts(w: string, p: string, from: nat)
    requires p != [] && from <= |w|
    ensures Pieces(w[from..], p) == Cuts(w, from, Positions(w, p, from))
    decreases |w| - from
  {
    hide OccursAt, Find;
    match Find(w[from..], p) {
      case None =>
        NoneOccurs(w, p, from);
        PositionsSkip(w, p, from, |w| - from);
      case Some(k) =>
        var pos := from + k;
        FoundInside(w[from..], p);
        OccursInTail(w, p, from, k);
        forall i: nat | from <= i < from + k
          ensures !OccursAt(w, p, i)
        {
          OccursInTail(w, p, from, i - from);
        }
        PositionsSkip(w, p, from, k);
        assert OccursAt(w, p, pos);
        PiecesAreCuts(w, p, pos + 1);
        assert w[from..][k + 1..] == w[pos + 1..];
        assert w[from..][..k] == w[from..pos];
    }
  }

  lemma FoundInside(s: string, p: string)
    requires p != [] && Find(s, p).Some?
    ensures Find(s, p).value < |s|
  {}

  lemma NoneOccurs(w: string, p: string, from: nat)
    requires from <= |w| && Find(w[from..], p).None?
    ensures forall i: nat | from <= i < |w| :: !OccursAt(w, p, i)
  {
    hide OccursAt, Find;
    forall i: nat | from <= i < |w|
      ensures !OccursAt(w, p, i)
    {
      OccursInTail(w, p, from, i - from);
      assert !OccursAt(w[from..], p, i - from);
    }
  }

  lemma {:induction false} CutsCount(w: string, from: nat, ps: seq<nat>)
    requires forall i | 0 <= i < |ps| :: from <= ps[i] < |w|
    requires forall i, j | 0 <= i < j < |ps| :: ps[i] < ps[j]
    ensures |Cuts(w, from, ps)| == |ps|
    decreases |ps|
  {
    if ps != [] { CutsCount(w, ps[0] + 1, ps[1..]); }
  }

  lemma {:induction false} JoinPieces(strs: string, p: string)
    requires p != [] && EndsWith(strs, p)
    ensures Pieces(strs, p) != [] && Join(Pieces(strs, p), [p[0]]) + p == strs
    decreases |strs|
  {
    hide Find;
    hide OccursAt;
    hide EndsWith;
    EndOccurs(strs, p);
    var pos := Find(strs, p).value;
    TailEndsWith(strs, p);
    FoundHere(strs, p);
    var head, rest := strs[..pos], strs[pos + 1..];
    var ps := Pieces(strs, p);
    assert ps == [head] + Pieces(rest, p);
    if EndsWith(rest, p) {
      JoinPieces(rest, p);
      assert ps[1..] == Pieces(rest, p);
      var j := Join(Pieces(rest, p), [p[0]]);
      assert head + [p[0]] + j + p == head + [p[0]] + (j + p);
    } else {
      TooShort(rest, p);
      assert ps == [head];
      assert head + p == head + [p[0]] + p[1..];
    }
  }

  lemma FoundHere(s: string, p: string)
    requires p != [] && Find(s, p).Some?
    ensures Find(s, p).value < |s|
    ensures s == s[..Find(s, p).value] + [p[0]] + s[Find(s, p).value + 1..]
  {
    hide Find;
    var pos := Find(s, p).value;
    assert s[pos..pos + |p|][0] == p[0];
  }

  lemma TooShort(s: string, p: string)
    requires |s| < |p|
    ensures Find(s, p) == None
  {
    assert !OccursAt(s, p, 0);
  }

  /**
    For a nonempty text and pattern, joining `split` with the pattern's first character gives the
    text back, and there is one token for every occurrence of the pattern in text + pattern.
   */
  lemma SplitJoins(s: string, p: string)
    requires s != [] && p != []
    ensures Join(Pieces(s + p, p), [p[0]]) == s
    ensures |Pieces(s + p, p)| == |Positions(s + p, p, 0)|
    ensures Pieces(s + p, p) == Cuts(s + p, 0, Positions(s + p, p, 0))
  {
    EndsWithItself(s, p);
    JoinPieces(s + p, p);
    var j := Join(Pieces(s + p, p), [p[0]]);
    assert (j + p)[..|j|] == (s + p)[..|s|];
    assert (s + p)[0..] == s + p;
    PiecesAreCuts(s + p, p, 0);
    PositionsIncrease(s + p, p, 0);
    CutsCount(s + p, 0, Positions(s + p, p, 0));
  }

  lemma OnlyAtTheEnd(s: string, p: string)
    requires |p| == 1 && Find(s, p) == None
    ensures Find(s + p, p) == Some(|s|)
  {
    hide Find;
    forall j: nat | j < |s|
      ensures !OccursAt(s + p, p, j)
    {
      assert (s + p)[j..j + 1] == s[j..j + 1];
      assert !OccursAt(s, p, j);
    }
    assert (s + p)[|s|..|s| + 1] == p;
    FindIs(s + p, p, |s|);
  }

  /** With a one-character pattern the two splitters agree. */
  lemma {:induction false} OneCharacterPieces(s: string, p: string)
    requires |p| == 1
    ensures Pieces(s + p, p) == Tokens(s, p)
    decreases |s|
  {
    hide Find;
    EndsWithItself(s, p);
    EndOccurs(s + p, p);
    match Find(s, p) {
      case None =>
        OnlyAtTheEnd(s, p);
        assert (s + p)[..|s|] == s && (s + p)[|s| + 1..] == [];
        TooShort([], p);
      case Some(pos) =>
        FindInPrefix(s, p, p);
        assert (s + p)[..pos] == s[..pos];
        assert (s + p)[pos + 1..] == s[pos + 1..] + p;
        OneCharacterPieces(s[pos + 1..], p);
    }
  }
}
