/**
 The patterns of the Pump tokenizer: what each matches at the front of a text, the
 leftmost match of the table, and the other pieces a token can be made of.
 */
module PumpPatterns {
  import opened PumpSyntax
  import opened PumpText
  import opened Wrappers

  datatype Kind =
    | KVar | KElif | KElse | KFor | KIf | KRange | KDollarId | KLitDollar | KDollar | KOpen | KClose
    | KCode | KId | KEq | KExp | KDots

  /** `TOKEN_TABLE`, in its order. */
  const TABLE: seq<Kind> := [KVar, KElif, KElse, KFor, KIf, KRange, KDollarId, KLitDollar, KDollar, KOpen, KClose]

  predicate IdStart(c: char) {
    c == '_' || 'A' <= c <= 'Z' || 'a' <= c <= 'z'
  }

  predicate WordChar(c: char) {
    IdStart(c) || '0' <= c <= '9'
  }

  /** `\s*` */
  function Spaces(r: string): (n: nat)
    ensures n <= |r| && forall k | 0 <= k < n :: IsSpace(r[k])
  {
    if r == "" || !IsSpace(r[0]) then 0 else 1 + Spaces(r[1..])
  }

  /** `\w*` */
  function Word(r: string): (n: nat)
    ensures n <= |r|
  {
    if r == "" || !WordChar(r[0]) then 0 else 1 + Word(r[1..])
  }

  function Keyword(word: string, r: string): (n: Option<nat>)
    ensures n.Some? ==> |word| < n.value <= |r|
  {
    if word <= r && |r| > |word| && IsSpace(r[|word|]) then Some(|word| + Spaces(r[|word|..])) else None
  }

  function Bracket(c: char, r: string): (n: Option<nat>)
    ensures n.Some? ==> 0 < n.value <= |r|
  {
    if |r| < 2 || r[0] != c || r[1] != c then None else Some(if |r| > 2 && r[2] == '\n' then 3 else 2)
  }

  /** The length of the pattern's match at the front of `r`. */
  function MatchHere(kind: Kind, r: string): (n: Option<nat>)
    ensures n.Some? ==> 0 < n.value <= |r|
  {
    match kind
    case KVar => Keyword("$var", r)
    case KElif => Keyword("$elif", r)
    case KElse => Keyword("$else", r)
    case KFor => Keyword("$for", r)
    case KIf => Keyword("$if", r)
    case KRange => Keyword("$range", r)
    case KDollarId => if |r| >= 2 && r[0] == '$' && IdStart(r[1]) then Some(2 + Word(r[2..])) else None
    case KLitDollar => if "$($)" <= r then Some(4) else None
    case KDollar => if "$" <= r then Some(1) else None
    case KOpen => Bracket('[', r)
    case KClose => Bracket(']', r)
    case _ => None
  }

  /** `regex.search`: the leftmost match, as its start and length. */
  function Search(kind: Kind, s: string): (r: Option<(nat, nat)>)
    ensures r.Some? ==> r.value.0 <= |s| && MatchHere(kind, s[r.value.0..]) == Some(r.value.1)
    ensures r.Some? ==> forall j | 0 <= j < r.value.0 :: MatchHere(kind, s[j..]) == None
    ensures r.None? ==> forall j | 0 <= j <= |s| :: MatchHere(kind, s[j..]) == None
  {
    assert s[0..] == s;
    match MatchHere(kind, s)
    case Some(n) => Some((0, n))
    case None =>
      if s == "" then None
      else
        assert forall j | 1 <= j <= |s| :: s[j..] == s[1..][j - 1..];
        match Search(kind, s[1..])
        case None => None
        case Some((i, n)) => Some((i + 1, n))
  }

  /** `FindFirstInLine`: a later pattern wins only with an earlier start. */
  function Best(table: seq<Kind>, s: string): (r: Option<(nat, nat, Kind)>) {
    if table == [] then None
    else
      var best, kind := Best(table[..|table| - 1], s), table[|table| - 1];
      match Search(kind, s)
      case None => best
      case Some((start, n)) =>
        if best.None? || start < best.value.0 then Some((start, n, kind)) else best
  }

  predicate NoneAt(table: seq<Kind>, r: string) {
    forall t | 0 <= t < |table| :: MatchHere(table[t], r) == None
  }

  /** The first pattern of a table that matches here. */
  function FirstMatch(table: seq<Kind>, r: string): Option<Kind> {
    if table == [] then None
    else
      match FirstMatch(table[..|table| - 1], r)
      case Some(k) => Some(k)
      case None => if MatchHere(table[|table| - 1], r).Some? then Some(table[|table| - 1]) else None
  }

  /** It matches, and none before it does. */
  lemma {:induction false} FirstMatchIsFirst(table: seq<Kind>, r: string)
    ensures match FirstMatch(table, r)
            case None => NoneAt(table, r)
            case Some(k) =>
              && MatchHere(k, r).Some?
              && exists t :: 0 <= t < |table| && table[t] == k && NoneAt(table[..t], r)
  {
    hide MatchHere;
    if table != [] {
      var front, last := table[..|table| - 1], table[|table| - 1];
      FirstMatchIsFirst(front, r);
      if FirstMatch(front, r).Some? {
        var t :| 0 <= t < |front| && front[t] == FirstMatch(front, r).value && NoneAt(front[..t], r);
        assert table[t] == front[t] && table[..t] == front[..t];
      } else if MatchHere(last, r).Some? {
        assert table[|table| - 1] == last && table[..|table| - 1] == front;
      } else {
        assert forall t | 0 <= t < |front| :: table[t] == front[t];
      }
    }
  }

  /** The match found is the leftmost of all, and the first in the table there. */
  ghost predicate IsBest(table: seq<Kind>, s: string, r: Option<(nat, nat, Kind)>) {
    match r
    case None => forall j | 0 <= j <= |s| :: FirstMatch(table, s[j..]) == None
    case Some((i, n, kind)) =>
      && i <= |s| && MatchHere(kind, s[i..]) == Some(n) && FirstMatch(table, s[i..]) == Some(kind)
      && forall j | 0 <= j < i :: FirstMatch(table, s[j..]) == None
  }

  lemma {:induction false} BestIsBest(table: seq<Kind>, s: string)
    ensures IsBest(table, s, Best(table, s))
  {
    hide MatchHere, Search;
    if table != [] {
      BestIsBest(table[..|table| - 1], s);
    }
  }

  lemma BestFits(table: seq<Kind>, s: string)
    ensures var best := Best(table, s);
            best.Some? ==> 0 < best.value.1 && best.value.0 + best.value.1 <= |s|
  {
    hide FirstMatch;
    BestIsBest(table, s);
  }

  // ---------------------------------------------------------- plain text

  /** A `$`, a `[[` or a `]]` at the front. */
  predicate Opens(r: string) {
    r != "" && (r[0] == '$' || (|r| >= 2 && r[0] == r[1] && (r[0] == '[' || r[0] == ']')))
  }

  /** No `$`, no `[[` and no `]]` anywhere. */
  predicate Clean(s: string) {
    forall k | 0 <= k < |s| :: !Opens(s[k..])
  }

  /** These are exactly the places where some pattern of the table matches. */
  lemma OpensMatches(r: string)
    ensures FirstMatch(TABLE, r).None? <==> !Opens(r)
  {
    hide FirstMatch;
    FirstMatchIsFirst(TABLE, r);
    assert TABLE[8] == KDollar && TABLE[9] == KOpen && TABLE[10] == KClose;
    if NoneAt(TABLE, r) {
      assert MatchHere(TABLE[8], r) == None && MatchHere(TABLE[9], r) == None && MatchHere(TABLE[10], r) == None;
    }
    if !Opens(r) {
      forall t | 0 <= t < |TABLE| ensures MatchHere(TABLE[t], r) == None {
      }
    }
  }

  lemma CleanPrefix(s: string, n: nat)
    requires n <= |s| && forall j | 0 <= j < n :: !Opens(s[j..])
    ensures Clean(s[..n])
  {
    forall k | 0 <= k < n ensures !Opens(s[..n][k..]) {
      assert !Opens(s[k..]);
      assert s[..n][k..] == s[k..n];
    }
  }

  /** Joining after a line break cannot make a bracket pair. */
  lemma CleanConcat(a: string, b: string)
    requires Clean(a) && Clean(b) && (a == "" || Break(a[|a| - 1]))
    ensures Clean(a + b)
  {
    forall k | 0 <= k < |a + b| ensures !Opens((a + b)[k..]) {
      if k < |a| {
        assert !Opens(a[k..]);
        assert (a + b)[k..] == a[k..] + b;
      } else {
        assert (a + b)[k..] == b[k - |a|..];
      }
    }
  }

  lemma CleanShorter(s: string, n: nat)
    requires n <= |s| && Clean(s)
    ensures Clean(s[..n])
  {
    forall k | 0 <= k < n ensures !Opens(s[..n][k..]) {
      assert !Opens(s[k..]);
      assert s[..n][k..] == s[k..n];
    }
  }

  // --------------------------------------------------------- other pieces

  /** The identifier at the front of `r`, as its length. */
  function IdLength(r: string): (n: Option<nat>)
    ensures n.Some? ==> 0 < n.value <= |r|
  {
    if r != "" && IdStart(r[0]) then Some(1 + Word(r[1..])) else None
  }

  predicate Twice(c: char, r: string) {
    |r| >= 2 && r[0] == c && r[1] == c
  }

  /** `.*?(?=$|\$\$)`: up to a comment, or to the end of the line but for its `\n`. */
  function RestOfLine(r: string): (n: Option<nat>)
    ensures n.Some? ==> n.value <= |r|
  {
    if r == "" || (|r| == 1 && r[0] == '\n') || Twice('$', r) then Some(0)
    else if r[0] == '\n' then None
    else
      match RestOfLine(r[1..])
      case None => None
      case Some(n) => Some(n + 1)
  }

  predicate Comment(r: string, j: nat) {
    j + 1 < |r| && r[j] == '$' && r[j + 1] == '$'
  }

  /** The first comment is at `n`, or else the end of the line. */
  predicate CutsAt(r: string, n: nat) {
    && n <= |r| && (n == |r| || (n == |r| - 1 && r[n] == '\n') || Comment(r, n))
    && forall j | 0 <= j < n :: r[j] != '\n' && !Comment(r, j)
  }

  lemma CutsHere(r: string)
    requires r == "" || r == "\n" || Comment(r, 0)
    ensures CutsAt(r, 0)
  {
  }

  lemma CutsLater(r: string, n: nat)
    requires r != "" && r[0] != '\n' && !Comment(r, 0) && CutsAt(r[1..], n)
    ensures CutsAt(r, n + 1)
  {
    var t := r[1..];
    assert Comment(t, n) ==> Comment(r, n + 1);
    forall j | 0 <= j < n + 1 ensures r[j] != '\n' && !Comment(r, j) {
      if j > 0 {
        assert t[j - 1] != '\n' && !Comment(t, j - 1);
      }
    }
  }

  lemma {:induction false} RestOfLineStops(r: string)
    requires RestOfLine(r).Some?
    ensures CutsAt(r, RestOfLine(r).value)
  {
    hide CutsAt;
    if r == "" || (|r| == 1 && r[0] == '\n') || Twice('$', r) {
      CutsHere(r);
    } else {
      RestOfLineStops(r[1..]);
      CutsLater(r, RestOfLine(r[1..]).value);
    }
  }

  /** Where `..` first occurs. */
  function FindDots(r: string): (n: Option<nat>)
    ensures n.Some? ==> n.value + 2 <= |r| && r[n.value] == '.' && r[n.value + 1] == '.'
    ensures n.Some? ==> forall j | 0 <= j < n.value :: !(r[j] == '.' && r[j + 1] == '.')
  {
    if |r| < 2 then None
    else if r[0] == '.' && r[1] == '.' then Some(0)
    else
      match FindDots(r[1..])
      case None => None
      case Some(n) =>
        assert forall j | 1 <= j < |r| :: r[j] == r[1..][j - 1];
        Some(n + 1)
  }

  /** Where a parenthesis first occurs from `i` on. */
  function FindParen(s: string, i: nat): (p: Option<nat>)
    ensures p.Some? ==> i <= p.value < |s| && (s[p.value] == '(' || s[p.value] == ')')
    ensures p.Some? ==> forall j | i <= j < p.value :: s[j] != '(' && s[j] != ')'
    ensures p.None? ==> forall j | i <= j < |s| :: s[j] != '(' && s[j] != ')'
    decreases |s| - i
  {
    if i >= |s| then None else if s[i] == '(' || s[i] == ')' then Some(i) else FindParen(s, i + 1)
  }

  /** The inner `Parse`: the position of the closing parenthesis that matches. */
  function MatchParen(s: string, i: nat): (p: Option<nat>)
    ensures p.Some? ==> i <= p.value < |s| && s[p.value] == ')'
    decreases |s| - i
  {
    match FindParen(s, i)
    case None => None
    case Some(p) =>
      if s[p] == '(' then
        match MatchParen(s, p + 1)
        case None => None
        case Some(q) => MatchParen(s, q + 1)
      else Some(p)
  }

  /** How many parentheses are open at `j`, counted from `i`. */
  function Depth(s: string, i: nat, j: nat): int
    requires i <= j <= |s|
    decreases j - i
  {
    if j == i then 0
    else Depth(s, i, j - 1) + (if s[j - 1] == '(' then 1 else if s[j - 1] == ')' then -1 else 0)
  }

  lemma {:induction false} DepthSum(s: string, i: nat, m: nat, j: nat)
    requires i <= m <= j <= |s|
    ensures Depth(s, i, j) == Depth(s, i, m) + Depth(s, m, j)
    decreases j - m
  {
    if m < j {
      DepthSum(s, i, m, j - 1);
    }
  }

  lemma {:induction false} FlatDepth(s: string, i: nat, j: nat)
    requires i <= j <= |s| && forall k | i <= k < j :: s[k] != '(' && s[k] != ')'
    ensures Depth(s, i, j) == 0
    decreases j - i
  {
    if i < j {
      FlatDepth(s, i, j - 1);
    }
  }

  lemma DepthOfOne(s: string, p: nat)
    requires p < |s|
    ensures Depth(s, p, p + 1) == if s[p] == '(' then 1 else if s[p] == ')' then -1 else 0
  {
    assert Depth(s, p, p) == 0;
  }

  /**
   The position found closes the parenthesis that was open before `i`, and it is the
   first to do so; none is found only if that parenthesis is never closed.
   */
  lemma {:induction false} ParenMatches(s: string, i: nat, j: nat)
    requires i <= j <= |s|
    ensures MatchParen(s, i).Some? && j <= MatchParen(s, i).value ==> Depth(s, i, j) >= 0
    ensures MatchParen(s, i).Some? && j == MatchParen(s, i).value ==> Depth(s, i, j) == 0
    ensures MatchParen(s, i).None? ==> Depth(s, i, j) >= 0
    decreases |s| - i
  {
    hide Depth;
    var f := FindParen(s, i);
    if f.None? || j <= f.value {
      FlatDepth(s, i, j);
    } else if s[f.value] == '(' {
      var p := f.value;
      FlatDepth(s, i, p);
      DepthSum(s, i, p, p + 1);
      DepthOfOne(s, p);
      DepthSum(s, i, p + 1, j);
      var inner := MatchParen(s, p + 1);
      if inner.None? || j <= inner.value {
        ParenMatches(s, p + 1, j);
      } else {
        var q := inner.value;
        ParenMatches(s, p + 1, q);
        DepthSum(s, p + 1, q, q + 1);
        DepthOfOne(s, q);
        DepthSum(s, p + 1, q + 1, j);
        ParenMatches(s, q + 1, j);
      }
    }
  }

  /** `ParseExpTokenInParens`: how much of `r` the expression in parentheses takes. */
  function ParenLength(r: string): (n: Option<nat>)
    ensures n.Some? ==> 0 < n.value <= |r|
  {
    var j := Spaces(r);
    var k := if j < |r| && r[j] == '(' then j + 1 else j;
    match MatchParen(r, k)
    case None => None
    case Some(q) => Some(q + 1)
  }
}
