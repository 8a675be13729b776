/**
 cJSON_Minify: white space and comments disappear, string literals and everything else stay, and the
 text that is left means the same. A block comment that begins with a slash is closed there; it
 disappears all the same exactly when what follows that slash is white space, line comments and, at its
 end, another block comment.
 */
module JsonMinify {
  import opened Wrappers
  import opened JsonStrings
  import opened JsonNumbers
  import opened Json
  import opened JsonPrint

  /** The loop over a comment to the end of the line. */
  function SkipLine(t: string): (u: string)
    ensures |u| <= |t|
  {
    if At(t, 0) == NUL || t[0] == '\n' then t else SkipLine(t[1..])
  }

  /** The loop over a block comment, from its slash: none when it runs into the NUL, and steps over it. */
  function SkipBlock(t: string): (u: Option<string>)
    ensures u.Some? ==> |u.value| < |t|
  {
    if At(t, 0) == NUL then None
    else if t[0] == '*' && At(t, 1) == '/' then Some(t[2..])
    else SkipBlock(t[1..])
  }

  /** How many characters a literal has before its closing quote: none when it runs into the NUL. */
  function LiteralRun(t: string): (n: Option<nat>)
    ensures n.Some? ==> n.value < |t| && t[n.value] == '"'
    decreases |t|
  {
    if At(t, 0) == NUL then None
    else if t[0] == '"' then Some(0)
    else
      var k := if t[0] == '\\' then 2 else 1;
      if k > |t| || At(t, k - 1) == NUL || LiteralRun(t[k..]).None? then None
      else Some(k + LiteralRun(t[k..]).value)
  }

  function Prepend(a: string, r: Option<string>): Option<string> {
    match r
    case None => None
    case Some(b) => Some(a + b)
  }

  /** cJSON_Minify: none where it reads past the end of the text. */
  function Minify(t: string): (r: Option<string>)
    ensures r.Some? ==> |r.value| <= |t|
    decreases |t|
  {
    if At(t, 0) == NUL then Some([])
    else if IsSpace(t[0]) then Minify(t[1..])
    else if t[0] == '/' && At(t, 1) == '/' then
      assert SkipLine(t) == SkipLine(t[1..]);
      Minify(SkipLine(t))
    else if t[0] == '/' && At(t, 1) == '*' then
      if SkipBlock(t).None? then None else Minify(SkipBlock(t).value)
    else if t[0] == '"' then
      if LiteralRun(t[1..]).None? then None
      else
        var n := 2 + LiteralRun(t[1..]).value;
        Prepend(t[..n], Minify(t[n..]))
    else Prepend([t[0]], Minify(t[1..]))
  }

  // ----- gaps -----

  ghost predicate PieceOk(p: Piece) {
    match p
    case Space(c) => IsSpace(c)
    case Line(body) => forall i :: 0 <= i < |body| ==> body[i] != NUL && body[i] != '\n'
    case Block(body) => forall i :: 0 <= i < |body| ==> body[i] != NUL && !(body[i] == '*' && At(body, i + 1) == '/')
  }

  /** A block comment that cJSON_Minify closes where it opens. */
  predicate ClosedEarly(p: Piece) {
    p.Block? && At(p.body, 0) == '/'
  }

  /** Text that cJSON_Minify passes over: white space, whole lines of comment, and what it takes for block comments. */
  predicate Clear(t: string)
    decreases |t|
  {
    if t == [] then true
    else if IsSpace(t[0]) then Clear(t[1..])
    else if t[0] == '/' && At(t, 1) == '/' then
      assert SkipLine(t) == SkipLine(t[1..]);
      SkipLine(t) != [] && Clear(SkipLine(t))
    else t[0] == '/' && At(t, 1) == '*' && SkipBlock(t).Some? && Clear(SkipBlock(t).value)
  }

  /** A gap whose text cJSON_Minify passes over. */
  ghost predicate Commented(g: Gap) {
    Pieces(g) && Clear(GapText(g))
  }

  ghost predicate Pieces(g: Gap) {
    forall i :: 0 <= i < |g| ==> PieceOk(g[i])
  }

  /**
   What a comment that was closed early leaves, up to its own end: blanks and lines of comment, then a
   block comment.
   */
  predicate Leftover(b: string)
    decreases |b|
  {
    if b == [] then false
    else if IsSpace(b[0]) then Leftover(b[1..])
    else if b[0] == '/' && At(b, 1) == '/' then
      assert SkipLine(b) == SkipLine(b[1..]);
      Leftover(SkipLine(b))
    else b[0] == '/' && (|b| == 1 || b[1] == '*')
  }

  /** The piece disappears, whatever follows it. */
  predicate Gone(p: Piece) {
    !ClosedEarly(p) || Leftover(p.body[1..])
  }

  lemma {:induction false} LineSkipped(body: string, rest: string)
    requires PieceOk(Line(body))
    ensures SkipLine(body + (['\n'] + rest)) == ['\n'] + rest
  {
    var t := body + (['\n'] + rest);
    if body == [] {
      assert t == ['\n'] + rest;
    } else {
      assert t[1..] == body[1..] + (['\n'] + rest);
      LineSkipped(body[1..], rest);
    }
  }

  lemma BlockTail(body: string)
    requires PieceOk(Block(body)) && body != []
    ensures PieceOk(Block(body[1..]))
  {
    var rest := body[1..];
    forall i | 0 <= i < |rest|
      ensures rest[i] != NUL && !(rest[i] == '*' && At(rest, i + 1) == '/')
    {
      var j := i + 1;
      assert body[j] != NUL && !(body[j] == '*' && At(body, j + 1) == '/');
      assert rest[i] == body[j] && At(rest, i + 1) == At(body, j + 1);
    }
  }

  lemma {:induction false} BlockSkipped(body: string, rest: string)
    requires PieceOk(Block(body))
    ensures SkipBlock(body + (['*', '/'] + rest)) == Some(rest)
  {
    var t := body + (['*', '/'] + rest);
    if body == [] {
      assert t == ['*', '/'] + rest;
      assert t[2..] == rest;
    } else {
      assert t[1..] == body[1..] + (['*', '/'] + rest);
      BlockTail(body);
      BlockSkipped(body[1..], rest);
    }
  }

  /** The skip of a block comment ends where the comment does, exactly when the comment does not begin with a slash. */
  lemma BlockEnds(body: string, rest: string)
    requires PieceOk(Block(body))
    ensures SkipBlock(PieceText(Block(body)) + rest) == Some(rest) <==> !ClosedEarly(Block(body))
    ensures ClosedEarly(Block(body)) ==> SkipBlock(PieceText(Block(body)) + rest) == Some(body[1..] + ['*', '/'] + rest)
  {
    var tail := ['*', '/'] + rest;
    var t := PieceText(Block(body)) + rest;
    assert t == ['/', '*'] + (body + tail);
    assert t[1..] == ['*'] + (body + tail);
    assert t[1..][1..] == body + tail;
    BlockSkipped(body, rest);
    if ClosedEarly(Block(body)) {
      assert t[1..][2..] == body[1..] + ['*', '/'] + rest;
    } else {
      assert At(body + tail, 0) != '/';
    }
  }

  lemma {:induction false} SkipLineOn(t: string, rest: string)
    ensures SkipLine(t) != [] ==> SkipLine(t + rest) == SkipLine(t) + rest
    ensures SkipLine(t) == [] ==> SkipLine(t + rest) == SkipLine(rest)
  {
    if t == [] {
      assert t + rest == rest;
    } else {
      assert (t + rest)[1..] == t[1..] + rest;
      SkipLineOn(t[1..], rest);
    }
  }

  lemma {:induction false} SkipBlockOn(t: string, rest: string)
    requires SkipBlock(t).Some?
    ensures SkipBlock(t + rest) == Some(SkipBlock(t).value + rest)
  {
    assert (t + rest)[1..] == t[1..] + rest;
    if t[0] == '*' && At(t, 1) == '/' {
      assert (t + rest)[2..] == t[2..] + rest;
    } else {
      assert t[0] == '*' ==> SkipBlock(t[1..]).Some? && t[1..] != [];
      SkipBlockOn(t[1..], rest);
    }
  }

  lemma MinifyLine(t: string)
    requires At(t, 0) == '/' && At(t, 1) == '/'
    ensures Minify(t) == Minify(SkipLine(t))
  {
  }

  lemma MinifySpace(t: string)
    requires t != [] && IsSpace(t[0])
    ensures Minify(t) == Minify(t[1..])
  {
  }

  lemma MinifyBlock(t: string)
    requires At(t, 0) == '/' && At(t, 1) == '*' && SkipBlock(t).Some?
    ensures Minify(t) == Minify(SkipBlock(t).value)
  {
  }

  lemma {:induction false} ClearVanishes(t: string, rest: string)
    requires Clear(t)
    ensures Minify(t + rest) == Minify(rest)
    decreases |t|
  {
    hide Minify;
    var u := t + rest;
    if t == [] {
      assert u == rest;
    } else {
      assert u[0] == t[0] && (|t| > 1 ==> u[1] == t[1]) && u[1..] == t[1..] + rest;
      if IsSpace(t[0]) {
        MinifySpace(u);
        ClearVanishes(t[1..], rest);
      } else if At(t, 1) == '/' {
        assert SkipLine(t) == SkipLine(t[1..]);
        SkipLineOn(t, rest);
        MinifyLine(u);
        ClearVanishes(SkipLine(t), rest);
      } else {
        SkipBlockOn(t, rest);
        MinifyBlock(u);
        ClearVanishes(SkipBlock(t).value, rest);
      }
    }
  }

  /** Text that is not clear shows in front of some other text. */
  lemma {:induction false} UnclearShows(t: string) returns (rest: string)
    requires !Clear(t)
    ensures Minify(rest).Some? && Minify(t + rest) != Minify(rest)
    decreases |t|
  {
    hide Minify;
    MinifyNothing();
    MinifyX();
    if t[0] == NUL || (t[0] == '/' && At(t, 1) == '/' && SkipLine(t) == []) {
      rest := "x";
      SkipLineOn(t, rest);
      MinifySwallows(t + rest);
    } else if IsSpace(t[0]) {
      rest := UnclearShows(t[1..]);
      assert (t + rest)[1..] == t[1..] + rest;
      MinifySpace(t + rest);
    } else if t[0] == '/' && At(t, 1) == '/' {
      assert SkipLine(t) == SkipLine(t[1..]);
      rest := UnclearShows(SkipLine(t));
      SkipLineOn(t, rest);
      MinifyLine(t + rest);
    } else if t[0] == '/' && At(t, 1) == '*' && SkipBlock(t).Some? {
      rest := UnclearShows(SkipBlock(t).value);
      SkipBlockOn(t, rest);
      MinifyBlock(t + rest);
    } else {
      rest := "";
      MinifyShows(t);
      assert t + rest == t;
    }
  }

  lemma MinifySwallows(t: string)
    requires At(t, 0) == NUL || (At(t, 0) == '/' && At(t, 1) == '/' && SkipLine(t) == [])
    ensures Minify(t) == Some([])
  {
    MinifyNothing();
  }

  lemma MinifyShows(t: string)
    requires t != [] && t[0] != NUL && !IsSpace(t[0]) && !(t[0] == '/' && At(t, 1) == '/')
    requires t[0] == '/' && At(t, 1) == '*' ==> SkipBlock(t).None?
    ensures Minify(t) != Some([])
  {
  }

  lemma MinifyX()
    ensures Minify("x") == Some("x") && SkipLine("x") == []
  {
    MinifyNothing();
    TokenStays("x", []);
    assert "x" + [] == "x" && "x"[1..] == [];
    assert SkipLine("x") == SkipLine("x"[1..]);
  }

  /** The clear texts are exactly those that disappear whatever follows them. */
  lemma ClearExactly(t: string)
    ensures Clear(t) <==> forall rest | Minify(rest).Some? :: Minify(t + rest) == Minify(rest)
  {
    if Clear(t) {
      forall rest | Minify(rest).Some?
        ensures Minify(t + rest) == Minify(rest)
      {
        ClearVanishes(t, rest);
      }
    } else {
      var rest := UnclearShows(t);
    }
  }

  lemma {:induction false} ClearConcat(a: string, b: string)
    requires Clear(a)
    ensures Clear(a + b) <==> Clear(b)
    decreases |a|
  {
    var u := a + b;
    if a == [] {
      assert u == b;
    } else {
      assert u[0] == a[0] && (|a| > 1 ==> u[1] == a[1]) && u[1..] == a[1..] + b;
      if IsSpace(a[0]) {
        ClearConcat(a[1..], b);
      } else if At(a, 1) == '/' {
        assert SkipLine(a) == SkipLine(a[1..]);
        SkipLineOn(a, b);
        ClearConcat(SkipLine(a), b);
      } else {
        SkipBlockOn(a, b);
        ClearConcat(SkipBlock(a).value, b);
      }
    }
  }

  lemma {:induction false} SkipLineSuffix(b: string)
    requires PieceOk(Block(b))
    ensures PieceOk(Block(SkipLine(b))) && (SkipLine(b) != [] ==> SkipLine(b)[0] == '\n')
  {
    if b != [] && b[0] != '\n' {
      assert b[0] != NUL;
      BlockTail(b);
      SkipLineSuffix(b[1..]);
    }
  }

  /** The leftover of a comment and the comment's end are clear exactly when the leftover ends in a block comment. */
  lemma {:induction false} LeftoverClear(b: string)
    requires PieceOk(Block(b))
    ensures Clear(b + ['*', '/']) <==> Leftover(b)
    decreases |b|
  {
    var end := ['*', '/'];
    var u := b + end;
    if b == [] {
      assert u == end;
    } else {
      assert u[0] == b[0] && u[1..] == b[1..] + end && u[1] == (if |b| > 1 then b[1] else '*');
      assert b[0] != NUL && !(b[0] == '*' && At(b, 1) == '/');
      BlockTail(b);
      if IsSpace(b[0]) {
        LeftoverClear(b[1..]);
      } else if b[0] == '/' && At(b, 1) == '/' {
        assert SkipLine(b) == SkipLine(b[1..]);
        SkipLineOn(b, end);
        SkipLineSuffix(b);
        assert SkipLine(end) == SkipLine(end[1..]) && SkipLine(end[1..]) == SkipLine(end[2..]);
        if SkipLine(b) != [] {
          LeftoverClear(SkipLine(b));
        }
      } else if b[0] == '/' && u[1] == '*' {
        if |b| == 1 {
          assert u[1..] == end && end[2..] == [] && b[1..] == [];
          assert SkipBlock(u) == SkipBlock(end) == Some([]);
        } else {
          BlockTail(b[1..]);
          BlockSkipped(b[1..], []);
          assert b[1..] + (end + []) == u[1..];
        }
      }
    }
  }

  lemma LineClear(body: string)
    requires PieceOk(Line(body))
    ensures Clear(PieceText(Line(body)))
  {
    var t, more := PieceText(Line(body)), body + (['\n'] + []);
    LineSkipped(body, []);
    hide PieceOk;
    assert t == ['/'] + (['/'] + more);
    Tail('/', ['/'] + more);
    Tail('/', more);
    assert ['\n'] + [] == ['\n'];
    assert SkipLine(t) == SkipLine(['/'] + more) == SkipLine(more);
    assert SkipLine(t) == ['\n'] && ['\n'][1..] == [];
  }

  lemma PieceClear(p: Piece)
    requires PieceOk(p)
    ensures Clear(PieceText(p)) <==> Gone(p)
  {
    match p
    case Space(c) => assert [c][1..] == [];
    case Line(body) => LineClear(body);
    case Block(body) =>
      var t, end := PieceText(p), ['*', '/'];
      assert t + [] == t;
      BlockEnds(body, []);
      if ClosedEarly(p) {
        BlockTail(body);
        LeftoverClear(body[1..]);
        assert body[1..] + end + [] == body[1..] + end;
      }
  }

  lemma PieceVanishes(p: Piece, rest: string)
    requires PieceOk(p) && Gone(p)
    ensures Minify(PieceText(p) + rest) == Minify(rest)
  {
    PieceClear(p);
    ClearVanishes(PieceText(p), rest);
  }

  /**
   A piece disappears whatever follows it exactly when it is not a comment that is closed early, or what
   is left of that is passed over in turn.
   */
  lemma GoneExactly(p: Piece)
    requires PieceOk(p)
    ensures Gone(p) <==> forall rest | Minify(rest).Some? :: Minify(PieceText(p) + rest) == Minify(rest)
  {
    PieceClear(p);
    ClearExactly(PieceText(p));
  }

  /** Gaps of pieces that disappear one by one are passed over. */
  lemma {:induction false} GonePieces(g: Gap)
    requires Pieces(g) && forall i :: 0 <= i < |g| ==> Gone(g[i])
    ensures Commented(g)
  {
    if g != [] {
      assert Gone(g[0]) && forall i :: 0 <= i < |g[1..]| ==> g[1..][i] == g[i + 1];
      GonePieces(g[1..]);
      PieceClear(g[0]);
      ClearConcat(PieceText(g[0]), GapText(g[1..]));
    }
  }

  /** The gaps of the theorems below are exactly those that disappear whatever follows them. */
  lemma CommentedExactly(g: Gap)
    requires Pieces(g)
    ensures Commented(g) <==> forall rest | Minify(rest).Some? :: Minify(GapText(g) + rest) == Minify(rest)
  {
    ClearExactly(GapText(g));
  }

  lemma GapVanishes(g: Gap, rest: string)
    requires Commented(g)
    ensures Minify(GapText(g) + rest) == Minify(rest)
  {
    ClearVanishes(GapText(g), rest);
  }

  // ----- tokens -----

  /** A character that is copied by itself. */
  predicate Copied(c: char) {
    c != NUL && !IsSpace(c) && c != '/' && c != '"'
  }

  lemma {:induction false} TokenStays(token: string, rest: string)
    requires forall i :: 0 <= i < |token| ==> Copied(token[i])
    ensures Minify(token + rest) == Prepend(token, Minify(rest))
  {
    if token == [] {
      assert token + rest == rest;
      assert Minify(rest).Some? ==> [] + Minify(rest).value == Minify(rest).value;
    } else {
      assert token + rest == [token[0]] + (token[1..] + rest);
      Tail(token[0], token[1..] + rest);
      TokenStays(token[1..], rest);
      assert Minify(rest).Some? ==> [token[0]] + (token[1..] + Minify(rest).value) == token + Minify(rest).value;
    }
  }

  lemma RunQuote(rest: string)
    ensures LiteralRun(['"'] + rest) == Some(0)
  {
  }

  lemma {:induction false} LiteralRunOf(us: seq<Unit>, rest: string)
    requires UnitsOk(us)
    ensures LiteralRun(UnitsText(us) + (['"'] + rest)) == Some(|UnitsText(us)|)
  {
    hide LiteralRun, UnitText, UnitOk;
    var end := ['"'] + rest;
    if us == [] {
      assert UnitsText(us) + end == end;
      RunQuote(rest);
    } else {
      Regroup(UnitText(us[0]), UnitsText(us[1..]), end);
      LiteralRunOf(us[1..], rest);
      RunUnit(us[0], UnitsText(us[1..]) + end);
    }
  }

  lemma RunPlain(c: char, t: string)
    requires c != NUL && c != '"' && c != '\\' && LiteralRun(t).Some?
    ensures LiteralRun([c] + t) == Some(1 + LiteralRun(t).value)
  {
    Tail(c, t);
  }

  lemma RunTwo(c: char, t: string)
    requires c != NUL && LiteralRun(t).Some?
    ensures LiteralRun(['\\', c] + t) == Some(2 + LiteralRun(t).value)
  {
    assert (['\\', c] + t)[2..] == t;
  }

  lemma RunHex(h: string, t: string)
    requires IsHex4(h) && LiteralRun(t).Some?
    ensures LiteralRun(UnitText(Hex(h)) + t) == Some(|UnitText(Hex(h))| + LiteralRun(t).value)
  {
    hide LiteralRun;
    RunPlain(h[3], t);
    RunPlain(h[2], [h[3]] + t);
    RunPlain(h[1], [h[2]] + ([h[3]] + t));
    var u := [h[0]] + ([h[1]] + ([h[2]] + ([h[3]] + t)));
    RunPlain(h[0], [h[1]] + ([h[2]] + ([h[3]] + t)));
    RunTwo('u', u);
    assert UnitText(Hex(h)) + t == ['\\', 'u'] + u;
  }

  lemma RunUnit(u: Unit, t: string)
    requires UnitOk(u) && LiteralRun(t).Some?
    ensures LiteralRun(UnitText(u) + t) == Some(|UnitText(u)| + LiteralRun(t).value)
  {
    hide LiteralRun, IsHex4;
    match u
    case Plain(c) => RunPlain(c, t);
    case Simple(c) => RunTwo(c, t);
    case Hex(h) => RunHex(h, t);
  }

  lemma QuotesSplit(body: string, rest: string)
    ensures var t := ['"'] + (body + (['"'] + rest));
            t[..2 + |body|] == ['"'] + (body + ['"']) && t[2 + |body|..] == rest
    ensures (['"'] + (body + ['"'])) + rest == ['"'] + (body + (['"'] + rest))
  {
  }

  lemma LiteralStays(us: seq<Unit>, rest: string)
    requires UnitsOk(us) && Minify(rest).Some?
    ensures Minify(InQuotes(us, rest)) == Some(InQuotes(us, Minify(rest).value))
  {
    hide UnitsText, LiteralRun, SkipLine, SkipBlock;
    var body := UnitsText(us);
    LiteralRunOf(us, rest);
    Tail('"', body + (['"'] + rest));
    QuotesSplit(body, rest);
    QuotesSplit(body, Minify(rest).value);
  }

  // ----- documents -----

  /** The grammar with comments in its gaps. */
  ghost predicate Extended(c: Cst)
    decreases c
  {
    match c
    case CNumber(literal) => LiteralOk(literal)
    case CString(units) => UnitsOk(units)
    case CArray(gap, elements) => Commented(gap) && ExtendedChildren(elements, false)
    case CObject(gap, elements) => Commented(gap) && ExtendedChildren(elements, true)
    case _ => true
  }

  ghost predicate ExtendedChild(c: CChild, named: bool)
    decreases c
  {
    && Commented(c.before) && Commented(c.after) && Extended(c.value) && named == c.name.Some?
    && (named ==> Commented(c.name.value.before) && Commented(c.name.value.colon) && UnitsOk(c.name.value.units))
  }

  ghost predicate ExtendedChildren(cs: seq<CChild>, named: bool)
    decreases cs
  {
    cs == [] || (ExtendedChild(cs[0], named) && ExtendedChildren(cs[1..], named))
  }

  /** A gap without its comments, or nothing. */
  function Spaces(g: Gap, keep: bool): Gap {
    if g == [] || !keep then []
    else (if g[0].Space? then [g[0]] else []) + Spaces(g[1..], keep)
  }

  /** The same syntax with every gap's comments left out, and, unless `keep`, its white space too. */
  function Bare(c: Cst, keep: bool): Cst
    decreases c
  {
    match c
    case CArray(gap, elements) => CArray(Spaces(gap, keep), BareChildren(elements, keep))
    case CObject(gap, elements) => CObject(Spaces(gap, keep), BareChildren(elements, keep))
    case _ => c
  }

  function BareChild(c: CChild, keep: bool): CChild
    decreases c
  {
    var name := match c.name
      case None => None
      case Some(n) => Some(CName(Spaces(n.before, keep), n.units, Spaces(n.colon, keep)));
    CChild(name, Spaces(c.before, keep), Bare(c.value, keep), Spaces(c.after, keep))
  }

  function BareChildren(cs: seq<CChild>, keep: bool): (bs: seq<CChild>)
    ensures |bs| == |cs|
    decreases cs
  {
    if cs == [] then [] else [BareChild(cs[0], keep)] + BareChildren(cs[1..], keep)
  }

  lemma SpacesBlank(g: Gap, keep: bool)
    requires Commented(g)
    ensures Blank(Spaces(g, keep))
  {
    PiecesBlank(g, keep);
  }

  lemma {:induction false} PiecesBlank(g: Gap, keep: bool)
    requires Pieces(g)
    ensures Blank(Spaces(g, keep))
  {
    if g != [] && keep {
      assert PieceOk(g[0]);
      PiecesBlank(g[1..], keep);
    }
  }

  /** Without its comments the syntax is of the grammar, and what it stands for does not depend on white space. */
  lemma {:induction false} BareTree(c: Cst)
    requires Extended(c)
    ensures Proper(Bare(c, true)) && Proper(Bare(c, false)) && Tree(Bare(c, true)) == Tree(Bare(c, false))
    decreases c, 2
  {
    hide LiteralOk, UnitsOk, Decode, Value, Commented, Blank, Spaces;
    if c.CArray? || c.CObject? {
      SpacesBlank(c.gap, true);
      SpacesBlank(c.gap, false);
      BareTrees(c.elements, c.CObject?);
    }
  }

  lemma {:induction false} BareTreeChild(c: CChild, named: bool)
    requires ExtendedChild(c, named)
    ensures ProperChild(BareChild(c, true), named) && ProperChild(BareChild(c, false), named)
    ensures ChildTree(BareChild(c, true), named) == ChildTree(BareChild(c, false), named)
    decreases c, 1
  {
    hide UnitsOk, Decode, Commented, Blank, Spaces, Extended, Proper, Bare, Tree;
    BareTree(c.value);
    SpacesBlank(c.before, true);
    SpacesBlank(c.before, false);
    SpacesBlank(c.after, true);
    SpacesBlank(c.after, false);
    if named {
      SpacesBlank(c.name.value.before, true);
      SpacesBlank(c.name.value.before, false);
      SpacesBlank(c.name.value.colon, true);
      SpacesBlank(c.name.value.colon, false);
    }
  }

  lemma {:induction false} BareTrees(cs: seq<CChild>, named: bool)
    requires ExtendedChildren(cs, named)
    ensures ProperChildren(BareChildren(cs, true), named) && ProperChildren(BareChildren(cs, false), named)
    ensures ChildTrees(BareChildren(cs, true), named) == ChildTrees(BareChildren(cs, false), named)
    decreases cs, 1
  {
    hide ExtendedChild, ProperChild, BareChild, ChildTree;
    if cs != [] {
      BareTreeChild(cs[0], named);
      BareTrees(cs[1..], named);
    }
  }

  /** Minifying the text of a syntax gives the text of its bare syntax, followed by what follows minified. */
  lemma {:induction false} ValueMinified(c: Cst, rest: string)
    requires Extended(c) && Minify(rest).Some?
    ensures Minify(Spell(c, rest)) == Some(Spell(Bare(c, false), Minify(rest).value))
    decreases c, 2
  {
    hide Minify, LiteralOk, UnitsOk, Commented, LiteralText, InQuotes, GapText, SpellChildren;
    match c
    case CNull => WordStays("null", rest);
    case CFalse => WordStays("false", rest);
    case CTrue => WordStays("true", rest);
    case CNumber(literal) =>
      NumberCopied(literal);
      TokenStays(LiteralText(literal), rest);
    case CString(units) => LiteralStays(units, rest);
    case CArray(gap, elements) => ListMinified(gap, elements, false, rest);
    case CObject(gap, elements) => ListMinified(gap, elements, true, rest);
  }

  lemma WordStays(word: string, rest: string)
    requires word in {"null", "false", "true"}
    ensures Minify(word + rest) == Prepend(word, Minify(rest))
  {
    TokenStays(word, rest);
  }

  lemma DigitsCopied(ds: string)
    requires AllDigits(ds)
    ensures forall i :: 0 <= i < |ds| ==> Copied(ds[i])
  {
  }

  lemma NumberCopied(n: Literal)
    requires LiteralOk(n)
    ensures forall i :: 0 <= i < |LiteralText(n)| ==> Copied(LiteralText(n)[i])
  {
    DigitsCopied(n.whole);
    DigitsCopied(n.fraction);
    hide AllDigits;
    assert forall i :: 0 <= i < |FractionText(n)| ==> Copied(FractionText(n)[i]);
    if n.exponent.Exponent? {
      DigitsCopied(n.exponent.digits);
    }
    assert forall i :: 0 <= i < |ExponentText(n.exponent)| ==> Copied(ExponentText(n.exponent)[i]);
  }

  lemma CharStays(c: char, rest: string)
    requires Copied(c) && Minify(rest).Some?
    ensures Minify([c] + rest) == Some([c] + Minify(rest).value)
  {
    Tail(c, rest);
  }

  lemma NoGapText()
    ensures GapText([]) == [] && forall g: Gap :: Spaces(g, false) == []
  {
  }

  lemma {:induction false} ListMinified(gap: Gap, cs: seq<CChild>, named: bool, rest: string)
    requires Commented(gap) && ExtendedChildren(cs, named) && Minify(rest).Some?
    ensures var c := if named then CObject(gap, cs) else CArray(gap, cs);
            Minify(Spell(c, rest)) == Some(Spell(Bare(c, false), Minify(rest).value))
    decreases cs, 3
  {
    hide Minify, GapText, SpellChildren, Commented, Copied;
    assert Copied(Open(named)) && Copied(Close(named)) by {
      BracketsCopied(named);
    }
    NoGapText();
    CharStays(Close(named), rest);
    var end, end' := [Close(named)] + rest, [Close(named)] + Minify(rest).value;
    if cs == [] {
      GapVanishes(gap, end);
      CharStays(Open(named), GapText(gap) + end);
      NoGap(end');
    } else {
      ChildrenMinified(cs, named, end);
      CharStays(Open(named), SpellChildren(cs, end));
    }
  }

  lemma BracketsCopied(named: bool)
    ensures Copied(Open(named)) && Copied(Close(named)) && Copied(',') && Copied(':')
  {
  }

  lemma {:induction false} ChildMinified(c: CChild, named: bool, rest: string)
    requires ExtendedChild(c, named) && Minify(rest).Some?
    ensures Minify(SpellChild(c, rest)) == Some(SpellChild(BareChild(c, false), Minify(rest).value))
    decreases c, 1
  {
    hide Minify, GapText, Spell, Commented, Copied, Extended, UnitsOk, InQuotes, Bare, Spaces;
    NoGapText();
    BracketsCopied(named);
    GapVanishes(c.after, rest);
    var more := GapText(c.after) + rest;
    ValueMinified(c.value, more);
    var value := GapText(c.before) + Spell(c.value, more);
    GapVanishes(c.before, Spell(c.value, more));
    var m := Minify(rest).value;
    NoGap(m);
    NoGap(Spell(Bare(c.value, false), m));
    if named {
      var name := c.name.value;
      CharStays(':', value);
      GapVanishes(name.colon, [':'] + value);
      NoGap([':'] + Minify(value).value);
      LiteralStays(name.units, GapText(name.colon) + ([':'] + value));
      GapVanishes(name.before, InQuotes(name.units, GapText(name.colon) + ([':'] + value)));
      NoGap(InQuotes(name.units, [':'] + Minify(value).value));
    }
  }

  lemma {:induction false} ChildrenMinified(cs: seq<CChild>, named: bool, rest: string)
    requires cs != [] && ExtendedChildren(cs, named) && Minify(rest).Some?
    ensures Minify(SpellChildren(cs, rest)) == Some(SpellChildren(BareChildren(cs, false), Minify(rest).value))
    decreases cs, 2
  {
    hide Minify, SpellChild, ExtendedChild, BareChild, Copied;
    var bs := BareChildren(cs, false);
    assert bs[0] == BareChild(cs[0], false) && bs[1..] == BareChildren(cs[1..], false);
    if |cs| == 1 {
      ChildMinified(cs[0], named, rest);
    } else {
      BracketsCopied(named);
      ChildrenMinified(cs[1..], named, rest);
      CharStays(',', SpellChildren(cs[1..], rest));
      ChildMinified(cs[0], named, [','] + SpellChildren(cs[1..], rest));
    }
  }

  // ----- meaning -----

  /** What may end a text: nothing, or a comment without a line end. */
  ghost predicate LastLine(last: string) {
    last == [] || exists body :: PieceOk(Line(body)) && last == ['/', '/'] + body
  }

  lemma {:induction false} LineToEnd(body: string)
    requires PieceOk(Line(body))
    ensures SkipLine(body) == []
  {
    if body != [] {
      LineToEnd(body[1..]);
    }
  }

  lemma LastLineVanishes(last: string)
    requires LastLine(last)
    ensures Minify(last) == Some([])
  {
    if last != [] {
      var body :| PieceOk(Line(body)) && last == ['/', '/'] + body;
      LineToEnd(body);
      hide PieceOk;
      assert last == ['/'] + (['/'] + body);
      Tail('/', ['/'] + body);
      Tail('/', body);
      assert SkipLine(last) == SkipLine(['/'] + body) == SkipLine(body);
    }
  }

  /**
   A text of the grammar, with comments wherever white space may stand: minified, it is the same syntax
   without gaps; and that parses to the tree to which the text without its comments parses.
   */
  lemma MinifyKeepsMeaning(before: Gap, c: Cst, after: Gap, last: string)
    requires Commented(before) && Extended(c) && Commented(after) && LastLine(last)
    ensures Minify(GapText(before) + Spell(c, GapText(after) + last)) == Some(Spell(Bare(c, false), []))
    ensures var original := GapText(Spaces(before, true)) + Spell(Bare(c, true), GapText(Spaces(after, true)));
            && ParseWithOpts(original, true).Ok?
            && ParseWithOpts(Spell(Bare(c, false), []), true) == ParseWithOpts(original, true)
  {
    hide Minify, Spell, GapText, ParseWithOpts, Proper, Extended, Bare, Spaces, Blank, Commented, LastLine;
    LastLineVanishes(last);
    GapVanishes(after, last);
    ValueMinified(c, GapText(after) + last);
    GapVanishes(before, Spell(c, GapText(after) + last));
    BareTree(c);
    SpacesBlank(before, true);
    SpacesBlank(after, true);
    DocumentParses(Spaces(before, true), Bare(c, true), Spaces(after, true), true);
    NothingBlank();
    DocumentParses([], Bare(c, false), [], true);
    NoGap(Spell(Bare(c, false), []));
    NoGap([]);
  }

  /** Without white space and comments there is nothing left to take out. */
  lemma {:induction false} BareTwice(c: Cst)
    ensures Bare(Bare(c, false), false) == Bare(c, false)
    decreases c, 2
  {
    if c.CArray? || c.CObject? {
      BareTwiceChildren(c.elements);
    }
  }

  lemma {:induction false} BareTwiceChild(c: CChild)
    ensures BareChild(BareChild(c, false), false) == BareChild(c, false)
    decreases c, 1
  {
    BareTwice(c.value);
  }

  lemma {:induction false} BareTwiceChildren(cs: seq<CChild>)
    ensures BareChildren(BareChildren(cs, false), false) == BareChildren(cs, false)
    decreases cs, 1
  {
    hide BareChild;
    if cs != [] {
      BareTwiceChild(cs[0]);
      BareTwiceChildren(cs[1..]);
    }
  }

  lemma BlankCommented(g: Gap)
    requires Blank(g)
    ensures Commented(g)
  {
    GonePieces(g);
  }

  lemma {:induction false} ProperExtended(c: Cst)
    requires Proper(c)
    ensures Extended(c)
    decreases c, 2
  {
    hide LiteralOk, UnitsOk, Blank, Commented;
    if c.CArray? || c.CObject? {
      BlankCommented(c.gap);
      ProperExtendedChildren(c.elements, c.CObject?);
    }
  }

  lemma {:induction false} ProperExtendedChild(c: CChild, named: bool)
    requires ProperChild(c, named)
    ensures ExtendedChild(c, named)
    decreases c, 1
  {
    hide UnitsOk, Blank, Commented;
    ProperExtended(c.value);
    BlankCommented(c.before);
    BlankCommented(c.after);
    if named {
      BlankCommented(c.name.value.before);
      BlankCommented(c.name.value.colon);
    }
  }

  lemma {:induction false} ProperExtendedChildren(cs: seq<CChild>, named: bool)
    requires ProperChildren(cs, named)
    ensures ExtendedChildren(cs, named)
    decreases cs, 1
  {
    if cs != [] {
      ProperExtendedChild(cs[0], named);
      ProperExtendedChildren(cs[1..], named);
    }
  }

  /** Minifying once is enough. */
  lemma MinifyTwice(c: Cst)
    requires Extended(c)
    ensures Minify(Spell(Bare(c, false), [])) == Some(Spell(Bare(c, false), []))
  {
    BareTree(c);
    ProperExtended(Bare(c, false));
    ValueMinified(Bare(c, false), []);
    BareTwice(c);
  }

  lemma {:induction false} BareSyntax(item: Item, depth: nat, fmt: bool, depth': nat)
    ensures Bare(Syntax(item, depth, fmt), false) == Syntax(item, depth', false)
    decreases item, 2
  {
    if item.Array? {
      BareElements(item.children, depth + 1, fmt, [], depth' + 1);
    } else if item.Object? {
      BareMembers(item.children, depth + 1, fmt, depth' + 1);
    }
  }

  lemma {:induction false} BareElement(c: Child, depth: nat, fmt: bool, before: Gap, depth': nat)
    ensures BareChild(Element(c, depth, fmt, before), false) == Element(c, depth', false, [])
    decreases c, 1
  {
    BareSyntax(c.item, depth, fmt, depth');
  }

  lemma {:induction false} BareElements(cs: seq<Child>, depth: nat, fmt: bool, before: Gap, depth': nat)
    ensures BareChildren(Elements(cs, depth, fmt, before), false) == Elements(cs, depth', false, [])
    decreases cs, 1
  {
    hide BareChild, Element;
    if cs != [] {
      BareElement(cs[0], depth, fmt, before, depth');
      BareElements(cs[1..], depth, fmt, if fmt then [Space(' ')] else [], depth');
    }
  }

  lemma {:induction false} BareMember(c: Child, depth: nat, fmt: bool, last: bool, depth': nat)
    ensures BareChild(CMember(c, depth, fmt, last), false) == CMember(c, depth', false, last)
    decreases c, 1
  {
    BareSyntax(c.item, depth, fmt, depth');
  }

  lemma {:induction false} BareMembers(cs: seq<Child>, depth: nat, fmt: bool, depth': nat)
    ensures BareChildren(Members(cs, depth, fmt), false) == Members(cs, depth', false)
    decreases cs, 1
  {
    hide BareChild, CMember;
    if cs != [] {
      BareMember(cs[0], depth, fmt, |cs| == 1, depth');
      BareMembers(cs[1..], depth, fmt, depth');
    }
  }

  /** Minifying what cJSON_Print writes gives what cJSON_PrintUnformatted writes. */
  lemma MinifyPrinted(item: Item, depth: nat, fmt: bool)
    requires Printable(item)
    ensures Minify(Print(item, depth, fmt)) == Some(Print(item, 0, false))
  {
    hide Print, Spell, Syntax, Printable, Extended, Proper, Bare;
    SyntaxTree(item, depth, fmt);
    ProperExtended(Syntax(item, depth, fmt));
    ItemText(item, depth, fmt, []);
    ItemText(item, 0, false, []);
    ValueMinified(Syntax(item, depth, fmt), []);
    BareSyntax(item, depth, fmt, 0);
    assert Print(item, depth, fmt) + [] == Print(item, depth, fmt);
    assert Print(item, 0, false) + [] == Print(item, 0, false);
  }

  // ----- a block comment that begins with a slash -----

  function One(digit: char): Literal {
    Literal(false, [digit], [], NoExponent)
  }

  /** An array of 1 and of 2, as written. */
  const BOTH: Cst := CArray([], [CChild(None, [], CNumber(One('1')), []), CChild(None, [], CNumber(One('2')), [])])

  /** An array of 1, with a comment before its bracket. */
  const SLASHED: Cst := CArray([], [CChild(None, [], CNumber(One('1')), [Block("/,2/*")])])

  lemma BothProper()
    ensures Proper(BOTH) && |Tree(BOTH).children| == 2
  {
    var cs := BOTH.elements;
    NothingBlank();
    assert LiteralOk(One('1')) && LiteralOk(One('2'));
    hide LiteralOk, Blank, Value;
    assert cs[1..] == [cs[1]] && cs[1..][1..] == [];
    assert ProperChild(cs[0], false) && ProperChild(cs[1], false);
    assert ProperChildren(cs[1..], false);
  }

  lemma OneSpelled(digit: char, rest: string)
    ensures SpellChild(CChild(None, [], CNumber(One(digit)), []), rest) == [digit] + rest
  {
    NoGap(rest);
    assert LiteralText(One(digit)) == [digit];
    hide LiteralText;
    NoGap([digit] + rest);
  }

  lemma BothSpelled()
    ensures Spell(BOTH, []) == "[1,2]"
  {
    var cs := BOTH.elements;
    assert [']'] + [] == [']'];
    OneSpelled('2', [']']);
    OneSpelled('1', [','] + (['2'] + [']']));
    hide SpellChild;
    assert cs[1..] == [cs[1]];
    assert SpellChildren(cs[1..], [']']) == ['2'] + [']'];
    assert SpellChildren(cs, [']']) == ['1'] + ([','] + (['2'] + [']']));
  }

  lemma SlashedSpelled()
    ensures Spell(SLASHED, []) == "[1" + (PieceText(Block("/,2/*")) + "]")
    ensures Proper(Bare(SLASHED, true)) && |Tree(Bare(SLASHED, true)).children| == 1
  {
    var gap := [Block("/,2/*")];
    assert gap[1..] == [];
    assert GapText(gap) == PieceText(Block("/,2/*")) + [];
    assert Spell(CNumber(One('1')), GapText(gap) + "]") == "1" + (GapText(gap) + "]");
  }

  lemma SlashedMinified()
    ensures PieceOk(Block("/,2/*"))
    ensures Minify("[1" + (PieceText(Block("/,2/*")) + "]")) == Some("[1,2]")
  {
    hide Minify, SkipBlock, PieceText, LiteralRun;
    var comment, more := PieceText(Block("/,2/*")) + "]", PieceText(Block([])) + "]";
    BlockEnds("/,2/*", "]");
    assert "/,2/*"[1..] + ['*', '/'] + "]" == ",2" + more by {
      EmptyBlock();
    }
    assert At(comment, 0) == '/' && At(comment, 1) == '*' by {
      BlockStart("/,2/*", "]");
    }
    MinifyBlock(comment);
    PieceVanishes(Block([]), "]");
    MinifyNothing();
    TokenStays("]", []);
    TokenStays(",2", more);
    TokenStays("[1", comment);
    assert "]" + [] == "]";
    assert Minify(more) == Some("]");
    assert Minify(comment) == Some(",2" + "]");
    assert "[1" + (",2" + "]") == "[1,2]";
  }

  lemma EmptyBlock()
    ensures PieceText(Block([])) == "/**/"
  {
  }

  lemma BlockStart(body: string, rest: string)
    ensures At(PieceText(Block(body)) + rest, 0) == '/' && At(PieceText(Block(body)) + rest, 1) == '*'
  {
  }

  lemma MinifyNothing()
    ensures Minify([]) == Some([])
  {
  }

  /** The comment's text is read as an element: the minified text is well formed, and means something else. */
  lemma CommentReadAsText()
    ensures PieceOk(Block("/,2/*")) && Minify(Spell(SLASHED, [])) == Some("[1,2]")
    ensures ParseValue("[1,2]") == Ok(Tree(BOTH), []) && Tree(BOTH) != Tree(Bare(SLASHED, true))
  {
    hide Minify, Spell, Tree, Proper, Bare, ParseValue, PieceText, PieceOk;
    SlashedSpelled();
    SlashedMinified();
    BothProper();
    BothSpelled();
    ValueSpelled(BOTH, []);
  }

  /**
   For whole documents the condition on gaps is not necessary: what is left of a comment before a number
   may spell that number, and then swallow it.
   */
  lemma KeptByAccident()
    ensures var gap := [Block("/1//")];
            && Pieces(gap) && !Commented(gap)
            && Spell(CNumber(One('1')), []) == "1" && Minify(GapText(gap) + "1\n") == Some("1")
  {
    AccidentUnclear();
    hide Minify, Clear, PieceOk, PieceText, SkipBlock;
    var t := PieceText(Block("/1//")) + "1\n";
    BlockEnds("/1//", "1\n");
    BlockStart("/1//", "1\n");
    MinifyBlock(t);
    LineSwallows();
    var line := "//" + ['*', '/'] + "1\n";
    assert "/1//"[1..] + ['*', '/'] + "1\n" == "1" + line;
    TokenStays("1", line);
    assert Spell(CNumber(One('1')), []) == LiteralText(One('1')) + [];
    assert "1" + [] == "1";
  }

  lemma AccidentUnclear()
    ensures var p := Block("/1//");
            PieceOk(p) && Pieces([p]) && GapText([p]) == PieceText(p) && !Commented([p])
  {
    var p := Block("/1//");
    assert [p][1..] == [] && p.body[1..] == "1//";
    PieceClear(p);
    hide Clear, Minify;
  }

  lemma LineSwallows()
    ensures Minify("//" + ['*', '/'] + "1\n") == Some([])
  {
    var line := "//" + ['*', '/'] + "1\n";
    assert line == "//*/1" + "\n";
    LineToEnd("//*/1");
    SkipLineOn("//*/1", "\n");
    MinifyLine(line);
    MinifySpace("\n");
    MinifyNothing();
    assert SkipLine("\n") == "\n" && "\n"[1..] == [];
  }
}
