/** The loops of cJSON_Minify, in place on the text's own characters. */
module JsonMinifyCode {
  import opened JsonStrings
  import opened JsonNumbers
  import opened Json
  import opened JsonMinify

  /** From `r` on the array still holds the original text and its NUL. */
  ghost predicate Unread(json: array<char>, r: nat, t: string)
    reads json
  {
    r <= |t| < json.Length && json[r..|t|] == t[r..] && json[|t|] == NUL && NUL !in t
  }

  lemma UnreadAt(json: array<char>, r: nat, t: string)
    requires Unread(json, r, t)
    ensures r < json.Length && json[r] == At(t[r..], 0)
    ensures r < |t| ==> json[r + 1] == At(t[r..], 1) && Unread(json, r + 1, t) && json[r] != NUL
    ensures r <= |t| < json.Length && (json[r] == NUL <==> r == |t|)
  {
    if r < |t| {
      assert json[r] == json[r..|t|][0] && t[r] in t;
      assert json[r + 1..|t|] == json[r..|t|][1..];
      if r + 1 < |t| {
        assert json[r + 1] == json[r..|t|][1];
      }
    }
  }

  lemma UnreadOn(json: array<char>, r: nat, k: nat, t: string)
    requires Unread(json, r, t) && r + k <= |t|
    ensures Unread(json, r + k, t) && t[r..][k..] == t[r + k..]
  {
    assert json[r + k..|t|] == json[r..|t|][k..];
  }

  /** The loop over a comment to the end of the line. */
  method SkipLineAt(json: array<char>, at: nat, ghost t: string) returns (r: nat)
    requires Unread(json, at, t)
    ensures Unread(json, r, t) && t[r..] == SkipLine(t[at..]) && at <= r
  {
    r := at;
    UnreadAt(json, r, t);
    while json[r] != NUL && json[r] != '\n'
      invariant at <= r && Unread(json, r, t) && SkipLine(t[r..]) == SkipLine(t[at..])
      decreases |t| - r
    {
      UnreadAt(json, r, t);
      assert t[r..][1..] == t[r + 1..];
      r := r + 1;
    }
    UnreadAt(json, r, t);
  }

  /** The loop over a block comment that is closed. */
  method SkipBlockAt(json: array<char>, at: nat, ghost t: string) returns (r: nat)
    requires Unread(json, at, t) && SkipBlock(t[at..]).Some?
    ensures Unread(json, r, t) && t[r..] == SkipBlock(t[at..]).value && at <= r
  {
    r := at;
    UnreadAt(json, r, t);
    while json[r] != NUL && !(json[r] == '*' && json[r + 1] == '/')
      invariant at <= r && Unread(json, r, t) && SkipBlock(t[r..]) == SkipBlock(t[at..])
      decreases |t| - r
    {
      UnreadAt(json, r, t);
      assert t[r..][1..] == t[r + 1..];
      r := r + 1;
    }
    UnreadAt(json, r, t);
    UnreadOn(json, r, 2, t);
    r := r + 2;
  }

  /** `w` characters have been written, none of them past what has been read. */
  ghost predicate Written(json: array<char>, w: nat, r: nat, m: string)
    reads json
  {
    w == |m| <= r <= json.Length && json[..w] == m
  }

  /** *into++ = *json++ */
  method Move(json: array<char>, w: nat, r: nat, ghost t: string, ghost m: string)
    requires Unread(json, r, t) && r < |t| && Written(json, w, r, m)
    modifies json
    ensures Unread(json, r + 1, t) && Written(json, w + 1, r + 1, m + [t[r]])
    ensures json[|t|..] == old(json[|t|..])
  {
    UnreadAt(json, r, t);
    json[w] := json[r];
    assert json[..w] == m;
    assert json[..w + 1] == json[..w] + [json[w]];
    assert json[r + 1..|t|] == old(json[r + 1..|t|]);
  }

  /** One turn of the inner loop of a literal: a character, or a backslash and a character. */
  method MoveEscaped(json: array<char>, w0: nat, r0: nat, ghost t: string, ghost m: string) returns (w: nat, r: nat)
    requires Unread(json, r0, t) && r0 < |t| && Written(json, w0, r0, m)
    requires t[r0] == '\\' ==> r0 + 1 < |t|
    modifies json
    ensures r == r0 + (if t[r0] == '\\' then 2 else 1) && Unread(json, r, t) && Written(json, w, r, m + t[r0..r])
    ensures json[|t|..] == old(json[|t|..])
  {
    UnreadAt(json, r0, t);
    hide Written, Unread;
    w, r := w0, r0;
    ghost var m' := m;
    assert m + t[r0..r0] == m;
    if json[r] == '\\' {
      Move(json, w, r, t, m');
      SliceOn(m, t, r0, r);
      w, r, m' := w + 1, r + 1, m' + [t[r]];
    }
    Move(json, w, r, t, m');
    SliceOn(m, t, r0, r);
    w, r := w + 1, r + 1;
  }

  /** The inner loop of a literal, from after its opening quote to its closing one. */
  method MoveLiteral(json: array<char>, w0: nat, r0: nat, ghost t: string, ghost m: string) returns (w: nat, r: nat)
    requires Unread(json, r0, t) && Written(json, w0, r0, m) && LiteralRun(t[r0..]).Some?
    modifies json
    ensures r == r0 + LiteralRun(t[r0..]).value && r < |t| && Unread(json, r, t)
    ensures Written(json, w, r, m + t[r0..r])
    ensures json[|t|..] == old(json[|t|..])
  {
    hide Written, LiteralRun, Unread;
    w, r := w0, r0;
    ghost var text := m;
    UnreadAt(json, r, t);
    assert m + t[r0..r0] == m;
    while json[r] != NUL && json[r] != '"'
      invariant r0 <= r < json.Length && r <= |t| < json.Length
      invariant Unread(json, r, t) && Written(json, w, r, text) && text == m + t[r0..r]
      invariant LiteralRun(t[r..]).Some? && r + LiteralRun(t[r..]).value == r0 + LiteralRun(t[r0..]).value
      invariant json[|t|..] == old(json[|t|..])
      decreases |t| - r
    {
      UnreadAt(json, r, t);
      RunStep(t, r);
      ghost var from := r;
      w, r := MoveEscaped(json, w, r, t, text);
      text := text + t[from..r];
      assert t[r0..r] == t[r0..from] + t[from..r];
    }
    UnreadAt(json, r, t);
    RunEnd(t, r);
  }

  lemma RunEnd(t: string, r: nat)
    requires r <= |t| && LiteralRun(t[r..]).Some? && (At(t[r..], 0) == '"' || At(t[r..], 0) == NUL)
    ensures r < |t| && LiteralRun(t[r..]).value == 0
  {
  }

  lemma SliceOn(m: string, t: string, a: nat, b: nat)
    requires a <= b < |t|
    ensures m + t[a..b] + [t[b]] == m + t[a..b + 1]
  {
    assert t[a..b + 1] == t[a..b] + [t[b]];
  }

  lemma RunStep(t: string, r: nat)
    requires r < |t| && LiteralRun(t[r..]).Some? && t[r] != '"' && t[r] != NUL
    ensures var k := if t[r] == '\\' then 2 else 1;
            r + k <= |t| && LiteralRun(t[r + k..]).Some? && LiteralRun(t[r..]).value == k + LiteralRun(t[r + k..]).value
  {
    var k := if t[r] == '\\' then 2 else 1;
    assert t[r..][k..] == t[r + k..];
  }

  /** A literal, its quotes included. */
  method MoveString(json: array<char>, w0: nat, r0: nat, ghost t: string, ghost m: string) returns (w: nat, r: nat)
    requires Unread(json, r0, t) && Written(json, w0, r0, m) && At(t[r0..], 0) == '"' && LiteralRun(t[r0 + 1..]).Some?
    modifies json
    ensures r == r0 + 2 + LiteralRun(t[r0 + 1..]).value && Unread(json, r, t)
    ensures Written(json, w, r, m + t[r0..r])
    ensures json[|t|..] == old(json[|t|..])
  {
    hide LiteralRun, Written;
    UnreadAt(json, r0, t);
    Move(json, w0, r0, t, m);
    w, r := MoveLiteral(json, w0 + 1, r0 + 1, t, m + [t[r0]]);
    Move(json, w, r, t, m + [t[r0]] + t[r0 + 1..r]);
    QuotedSlice(m, t, r0, r);
    w, r := w + 1, r + 1;
  }

  lemma QuotedSlice(m: string, t: string, a: nat, b: nat)
    requires a < b < |t|
    ensures m + [t[a]] + t[a + 1..b] + [t[b]] == m + t[a..b + 1]
  {
    assert t[a..b + 1] == [t[a]] + t[a + 1..b] + [t[b]];
  }

  /** What the rest of the text adds to what has been written. */
  ghost predicate Remains(t: string, r: nat, m: string, whole: string) {
    r <= |t| && Minify(t[r..]).Some? && m + Minify(t[r..]).value == whole
  }

  /** One turn of the loop: white space or a comment is passed over, a literal or another character is moved. */
  method Turn(json: array<char>, w0: nat, r0: nat, ghost t: string, ghost m: string, ghost whole: string)
    returns (w: nat, r: nat, ghost m': string)
    requires Unread(json, r0, t) && r0 < |t| && Written(json, w0, r0, m) && Remains(t, r0, m, whole)
    modifies json
    ensures r0 < r && Unread(json, r, t) && Written(json, w, r, m') && Remains(t, r, m', whole)
    ensures json[|t|..] == old(json[|t|..])
  {
    hide Minify, LiteralRun, SkipLine, SkipBlock;
    UnreadAt(json, r0, t);
    TurnCases(t, r0);
    w, r, m' := w0, r0, m;
    if IsSpace(json[r]) {
      r := r + 1;
    } else if json[r] == '/' && json[r + 1] == '/' {
      r := SkipLineAt(json, r, t);
      SkipLineMoves(t[r0..]);
    } else if json[r] == '/' && json[r + 1] == '*' {
      r := SkipBlockAt(json, r, t);
    } else if json[r] == '"' {
      w, r := MoveString(json, w, r, t, m);
      m' := m + t[r0..r];
      Regroup(m, t[r0..r], Minify(t[r..]).value);
    } else {
      Move(json, w, r, t, m);
      w, r, m' := w + 1, r + 1, m + [t[r]];
      Regroup(m, [t[r0]], Minify(t[r..]).value);
    }
  }

  lemma SkipLineMoves(t: string)
    requires At(t, 0) == '/'
    ensures |SkipLine(t)| < |t|
  {
  }

  /** The cases of Minify at a place in the text. */
  lemma TurnCases(t: string, r: nat)
    requires r < |t| && t[r] != NUL && Minify(t[r..]).Some?
    ensures var u := t[r..];
            if IsSpace(t[r]) then Minify(u) == Minify(t[r + 1..])
            else if t[r] == '/' && At(u, 1) == '/' then Minify(u) == Minify(SkipLine(u))
            else if t[r] == '/' && At(u, 1) == '*' then SkipBlock(u).Some? && Minify(u) == Minify(SkipBlock(u).value)
            else if t[r] == '"' then
              LiteralRun(t[r + 1..]).Some? && r + 2 + LiteralRun(t[r + 1..]).value <= |t|
              && var e := r + 2 + LiteralRun(t[r + 1..]).value;
                 Minify(t[e..]).Some? && Minify(u).value == t[r..e] + Minify(t[e..]).value
            else Minify(t[r + 1..]).Some? && Minify(u).value == [t[r]] + Minify(t[r + 1..]).value
  {
    hide LiteralRun, SkipLine, SkipBlock;
    var u := t[r..];
    assert u[1..] == t[r + 1..];
    if t[r] == '"' {
      var n := 2 + LiteralRun(u[1..]).value;
      assert u[..n] == t[r..r + n] && u[n..] == t[r + n..];
    }
  }

  /**
   cJSON_Minify on a text in which every literal and block comment is closed: in place, it leaves the
   minified text and its NUL, and touches nothing after the old one.
   */
  method MinifyInPlace(json: array<char>, ghost t: string)
    requires |t| < json.Length && json[..|t|] == t && json[|t|] == NUL && NUL !in t && Minify(t).Some?
    modifies json
    ensures var m := Minify(t).value;
            |m| <= |t| && json[..|m|] == m && json[|m|] == NUL && json[|t| + 1..] == old(json[|t| + 1..])
  {
    ghost var whole := Minify(t).value;
    assert t[0..] == t && json[0..|t|] == json[..|t|];
    ghost var m := [];
    var w: nat, r: nat := 0, 0;
    hide Minify;
    UnreadAt(json, r, t);
    while json[r] != NUL
      invariant Unread(json, r, t) && Written(json, w, r, m) && Remains(t, r, m, whole) && r < json.Length
      invariant json[|t|..] == old(json[|t|..])
      decreases |t| - r
    {
      UnreadAt(json, r, t);
      w, r, m := Turn(json, w, r, t, m, whole);
    }
    UnreadAt(json, r, t);
    NothingRemains(t, r, m, whole);
    assert json[|t|..][1..] == json[|t| + 1..] && old(json[|t|..])[1..] == old(json[|t| + 1..]);
    json[w] := NUL;
  }

  lemma NothingRemains(t: string, r: nat, m: string, whole: string)
    requires Remains(t, r, m, whole) && r == |t|
    ensures m == whole
  {
    assert t[r..] == [];
  }
}
