/**
 `cJSON_Minify` (cjson.c): removes white space and comments in place, and leaves string
 literals alone.
 */
module JsonMinify {
  import opened CString
  import opened JsonTree

  predicate IsSpace(b: byte) {
    b == SPACE || b == TAB || b == RETURN || b == NEWLINE
  }

  /** The suffix at the end of the line. */
  function SkipLine(r: text): (q: text)
    ensures |q| <= |r|
  {
    if r == [] || r[0] == NEWLINE then r else SkipLine(r[1..])
  }

  /** The suffix at the `*` and `/` that close a comment. */
  function SkipComment(r: text): (q: text)
    ensures |q| <= |r| && |q| != 1
  {
    if r == [] || (r[0] == STAR && |r| > 1 && r[1] == SLASH) then r else SkipComment(r[1..])
  }

  /** The suffix after the quote that closes a literal; `None` when the input ends first. */
  function SkipLiteral(r: text): (q: Option<text>)
    ensures q.Some? ==> |q.value| < |r|
  {
    if r == [] then None
    else if r[0] == QUOTE then Some(r[1..])
    else if r[0] != BACKSLASH then SkipLiteral(r[1..])
    else if |r| == 1 then None
    else SkipLiteral(r[2..])
  }

  /** The literal that starts at the cursor, from its opening to its closing quote. */
  function Literal(r: text): text
    requires r != [] && SkipLiteral(r[1..]).Some?
  {
    r[..|r| - |SkipLiteral(r[1..]).value|]
  }

  /** The minified text.  `None` where the source would run past the terminator: an open comment or literal. */
  function Minify(r: text): (m: Option<text>)
    decreases |r|
  {
    if r == [] then Some([])
    else if IsSpace(r[0]) then Minify(r[1..])
    else if r[0] == SLASH && |r| > 1 && r[1] == SLASH then Minify(SkipLine(r[1..]))
    else if r[0] == SLASH && |r| > 1 && r[1] == STAR then
      var q := SkipComment(r[1..]);
      if q == [] then None else Minify(q[2..])
    else if r[0] == QUOTE then
      var q := SkipLiteral(r[1..]);
      if q.None? then None else Prepend(Literal(r), Minify(q.value))
    else Prepend([r[0]], Minify(r[1..]))
  }

  function Prepend(a: text, m: Option<text>): Option<text> {
    if m.None? then None else Some(a + m.value)
  }

  // ---------------------------------------------------------------- in place

  /** What is still to be read at cursor `json`. */
  ghost predicate Unread(a: array<byte>, s: text, json: nat)
    reads a
  {
    json <= |s| < a.Length && a[json..|s|] == s[json..] && a[|s|] == 0
  }

  /** `*into++ = *json++` */
  method Move(a: array<byte>, ghost s: text, into: nat, json: nat)
    requires into <= json < |s| && Unread(a, s, json)
    modifies a
    ensures a[..into + 1] == old(a[..into]) + [s[json]]
    ensures Unread(a, s, json + 1) && a[|s|..] == old(a[|s|..])
  {
    ghost var rest := a[json + 1..];
    assert a[json] == a[json..|s|][0];
    assert a[json + 1..|s|] == a[json..|s|][1..] == s[json + 1..];
    a[into] := a[json];
    assert a[json + 1..] == rest;
    assert a[json + 1..|s|] == rest[..|s| - json - 1];
    assert a[|s|] == rest[|s| - json - 1];
  }

  lemma UnreadByte(a: array<byte>, s: text, json: nat)
    requires NulFree(s) && Unread(a, s, json)
    ensures json < |s| <==> a[json] != 0
    ensures json < |s| ==> a[json] == s[json]
  {
    if json < |s| {
      assert a[json] == a[json..|s|][0];
    }
  }

  /** The run `s[start..json]` has been moved down behind `before`, and nothing from `json` on has changed. */
  ghost predicate Moved(a: array<byte>, s: text, before: text, tail: text, start: nat, json: nat)
    reads a
  {
    && start <= json <= |s| < a.Length && |before| <= start
    && a[..|before| + json - start] == before + s[start..json]
    && Unread(a, s, json) && a[|s|..] == tail
  }

  lemma MovedNone(a: array<byte>, s: text, into: nat, json: nat)
    requires into <= json <= |s| < a.Length && Unread(a, s, json)
    ensures Moved(a, s, a[..into], a[|s|..], json, json)
  {
  }

  lemma MovedByte(a: array<byte>, s: text, before: text, tail: text, start: nat, json: nat)
    requires NulFree(s) && Moved(a, s, before, tail, start, json)
    ensures (json < |s| <==> a[json] != 0) && (json < |s| ==> a[json] == s[json])
  {
    UnreadByte(a, s, json);
  }

  method MoveOn(a: array<byte>, ghost s: text, ghost before: text, ghost tail: text, ghost start: nat,
                into: nat, json: nat)
    requires NulFree(s) && json < |s| && Moved(a, s, before, tail, start, json)
    requires into == |before| + json - start
    modifies a
    ensures Moved(a, s, before, tail, start, json + 1)
  {
    Extend(before, s, start, json);
    Move(a, s, into, json);
  }

  /** The position past the closing quote, where `SkipLiteral` gives the suffix. */
  ghost function LiteralEnd(s: text, i: nat): (e: Option<nat>)
    requires i <= |s|
    ensures e.Some? ==> i < e.value <= |s|
    decreases |s| - i
  {
    if i == |s| then None
    else if s[i] == QUOTE then Some(i + 1)
    else if s[i] != BACKSLASH then LiteralEnd(s, i + 1)
    else if i + 1 == |s| then None
    else LiteralEnd(s, i + 2)
  }

  lemma {:induction false} LiteralEndSkips(s: text, i: nat)
    requires i <= |s|
    ensures LiteralEnd(s, i).Some? <==> SkipLiteral(s[i..]).Some?
    ensures LiteralEnd(s, i).Some? ==> SkipLiteral(s[i..]).value == s[LiteralEnd(s, i).value..]
    decreases |s| - i
  {
    if i < |s| {
      assert s[i..][1..] == s[i + 1..];
      LiteralEndSkips(s, i + 1);
      if i + 1 < |s| {
        assert s[i..][2..] == s[i + 2..];
        LiteralEndSkips(s, i + 2);
      }
    }
  }

  /** Copies one character of a literal, with its backslash if it has one. */
  method CopyChar(a: array<byte>, ghost s: text, ghost before: text, ghost tail: text, ghost start: nat,
                  into: nat, json: nat) returns (n: nat)
    requires NulFree(s) && json < |s| < a.Length && Moved(a, s, before, tail, start, json)
    requires into == |before| + json - start
    requires s[json] != QUOTE && LiteralEnd(s, json).Some?
    modifies a
    ensures 0 < n && json + n <= |s| && Moved(a, s, before, tail, start, json + n)
    ensures LiteralEnd(s, json + n) == LiteralEnd(s, json)
  {
    hide Moved, Unread;
    n := 0;
    MovedByte(a, s, before, tail, start, json);
    if a[json] == BACKSLASH {
      MoveOn(a, s, before, tail, start, into, json);
      n := 1;
    }
    MoveOn(a, s, before, tail, start, into + n, json + n);
    n := n + 1;
  }

  /** Copies the literal at `json` down to `into`. */
  method CopyLiteral(a: array<byte>, ghost s: text, into: nat, json: nat) returns (into': nat, json': nat)
    requires NulFree(s) && into <= json < |s| < a.Length && Unread(a, s, json)
    requires s[json] == QUOTE && LiteralEnd(s, json + 1).Some?
    modifies a
    ensures json' == LiteralEnd(s, json + 1).value && into' == into + json' - json
    ensures Moved(a, s, old(a[..into]), old(a[|s|..]), json, json')
  {
    ghost var before, tail := a[..into], a[|s|..];
    MovedNone(a, s, into, json);
    MoveOn(a, s, before, tail, json, into, json);
    into', json' := into + 1, json + 1;
    into', json' := CopyChars(a, s, before, tail, json, into', json');
    MoveOn(a, s, before, tail, json, into', json');
    into', json' := into' + 1, json' + 1;
  }

  /** Copies up to the closing quote. */
  method CopyChars(a: array<byte>, ghost s: text, ghost before: text, ghost tail: text, ghost start: nat,
                   into: nat, json: nat) returns (into': nat, json': nat)
    requires NulFree(s) && json <= |s| && Moved(a, s, before, tail, start, json)
    requires into == |before| + json - start && |s| < a.Length && LiteralEnd(s, json).Some?
    modifies a
    ensures json <= json' < |s| && s[json'] == QUOTE && into' == |before| + json' - start
    ensures LiteralEnd(s, json').value == LiteralEnd(s, json).value
    ensures Moved(a, s, before, tail, start, json')
  {
    hide Moved, Unread;
    into', json' := into, json;
    MovedByte(a, s, before, tail, start, json');
    while a[json'] != 0 && a[json'] != QUOTE
      invariant json <= json' <= |s| && into' == |before| + json' - start
      invariant Moved(a, s, before, tail, start, json')
      invariant (json' < |s| <==> a[json'] != 0) && (json' < |s| ==> a[json'] == s[json'])
      invariant LiteralEnd(s, json') == LiteralEnd(s, json)
      decreases |s| - json'
    {
      var n := CopyChar(a, s, before, tail, start, into', json');
      into', json' := into' + n, json' + n;
      MovedByte(a, s, before, tail, start, json');
    }
  }

  lemma Extend(before: text, s: text, i: nat, j: nat)
    requires i <= j < |s|
    ensures before + s[i..j] + [s[j]] == before + s[i..j + 1]
  {
  }

  lemma UnreadLater(a: array<byte>, s: text, json: nat, json': nat)
    requires Unread(a, s, json) && json <= json' <= |s|
    ensures Unread(a, s, json')
  {
    assert a[json'..|s|] == a[json..|s|][json' - json..];
  }

  method LineEnd(a: array<byte>, ghost s: text, json: nat) returns (json': nat)
    requires NulFree(s) && |s| < a.Length && Unread(a, s, json) && json <= |s|
    ensures json <= json' <= |s| && s[json'..] == SkipLine(s[json..])
  {
    json' := json;
    UnreadByte(a, s, json');
    while a[json'] != 0 && a[json'] != NEWLINE
      invariant json <= json' <= |s| && SkipLine(s[json'..]) == SkipLine(s[json..])
      invariant json' < |s| <==> a[json'] != 0
      invariant json' < |s| ==> a[json'] == s[json']
      decreases |s| - json'
    {
      assert s[json'..][1..] == s[json' + 1..];
      json' := json' + 1;
      UnreadLater(a, s, json, json');
      UnreadByte(a, s, json');
    }
  }

  /** The position after the comment; the source's two-byte jump stays inside the text when the comment is closed. */
  method CommentEnd(a: array<byte>, ghost s: text, json: nat) returns (json': nat)
    requires NulFree(s) && |s| < a.Length && Unread(a, s, json) && json <= |s|
    requires SkipComment(s[json..]) != []
    ensures json < json' <= |s| && s[json'..] == SkipComment(s[json..])[2..]
  {
    json' := json;
    ghost var goal := SkipComment(s[json..]);
    while a[json'] != 0 && !(a[json'] == STAR && a[json' + 1] == SLASH)
      invariant json <= json' < |s| && SkipComment(s[json'..]) == goal
      decreases |s| - json'
    {
      UnreadLater(a, s, json, json');
      UnreadByte(a, s, json');
      UnreadLater(a, s, json, json' + 1);
      UnreadByte(a, s, json' + 1);
      assert s[json'..][1..] == s[json' + 1..];
      json' := json' + 1;
    }
    UnreadLater(a, s, json, json');
    UnreadByte(a, s, json');
    UnreadLater(a, s, json, json' + 1);
    UnreadByte(a, s, json' + 1);
    assert s[json'..][2..] == s[json' + 2..];
    json' := json' + 2;
  }

  /** One round of the main loop, at a byte that is not the terminator. */
  method Round(a: array<byte>, ghost s: text, into: nat, json: nat) returns (into': nat, json': nat)
    requires NulFree(s) && into <= json < |s| < a.Length && Unread(a, s, json)
    requires Minify(s[json..]).Some?
    modifies a
    ensures into <= into' <= json' && json < json' <= |s|
    ensures Minify(s[json'..]).Some?
    ensures a[..into'] + Minify(s[json'..]).value == old(a[..into]) + Minify(s[json..]).value
    ensures Unread(a, s, json') && a[|s|..] == old(a[|s|..])
  {
    hide Unread, Minify, SkipLine, SkipComment, SkipLiteral;
    ghost var before := a[..into];
    UnfoldMinify(s, json);
    UnreadByte(a, s, json);
    UnreadLater(a, s, json, json + 1);
    UnreadByte(a, s, json + 1);
    into', json' := into, json;
    if IsSpace(a[json]) {
      json' := json + 1;
    } else if a[json] == SLASH && a[json + 1] == SLASH {
      json' := LineEnd(a, s, json + 1);
      UnreadLater(a, s, json, json');
    } else if a[json] == SLASH && a[json + 1] == STAR {
      json' := CommentEnd(a, s, json + 1);
      UnreadLater(a, s, json, json');
    } else if a[json] == QUOTE {
      LiteralEndSkips(s, json + 1);
      into', json' := CopyLiteral(a, s, into, json);
      Reassociate(before, s[json..json'], Minify(s[json'..]).value);
    } else {
      Move(a, s, into, json);
      into', json' := into + 1, json + 1;
      Reassociate(before, [s[json]], Minify(s[json'..]).value);
    }
  }

  lemma Reassociate(a: text, b: text, c: text)
    ensures a + (b + c) == a + b + c
  {
  }

  lemma {:induction false} UnfoldMinify(s: text, i: nat)
    requires i < |s| && Minify(s[i..]).Some?
    ensures var m, next := Minify(s[i..]), At(s, i + 1);
            if IsSpace(s[i]) then m == Minify(s[i + 1..])
            else if s[i] == SLASH && next == SLASH then m == Minify(SkipLine(s[i + 1..]))
            else if s[i] == SLASH && next == STAR then
              SkipComment(s[i + 1..]) != [] && m == Minify(SkipComment(s[i + 1..])[2..])
            else if s[i] == QUOTE then
              var q := SkipLiteral(s[i + 1..]);
              q.Some? && m == Prepend(s[i..|s| - |q.value|], Minify(q.value))
            else m == Prepend([s[i]], Minify(s[i + 1..]))
  {
    hide SkipLine, SkipComment, SkipLiteral;
    var r := s[i..];
    assert r[1..] == s[i + 1..] && r[0] == s[i] && (|r| > 1 ==> r[1] == s[i + 1]);
    if r[0] == QUOTE {
      assert Literal(r) == s[i..|s| - |SkipLiteral(s[i + 1..]).value|];
    }
  }

  /**
   Minifies the C string `s` held in `a`.  The write cursor stays at or behind the read cursor,
   so nothing is overwritten before it is read.
   */
  method MinifyInPlace(a: array<byte>, ghost s: text) returns (ghost n: nat)
    requires NulFree(s) && |s| < a.Length && a[..|s|] == s && a[|s|] == 0
    requires Minify(s).Some?
    modifies a
    ensures n <= |s| && a[..n] == Minify(s).value && a[n] == 0
    ensures a[|s| + 1..] == old(a[|s| + 1..])
  {
    var into: nat, json: nat := 0, 0;
    assert a[0..|s|] == s && s[0..] == s;
    UnreadByte(a, s, 0);
    while a[json] != 0
      invariant into <= json <= |s| && Unread(a, s, json)
      invariant json < |s| <==> a[json] != 0
      invariant Minify(s[json..]).Some?
      invariant a[..into] + Minify(s[json..]).value == Minify(s).value
      invariant a[|s|..] == old(a[|s|..])
      decreases |s| - json
    {
      into, json := Round(a, s, into, json);
      UnreadByte(a, s, json);
    }
    assert s[json..] == [];
    ghost var tail := a[|s|..];
    n := into;
    a[into] := 0;
    assert a[|s| + 1..] == tail[1..];
  }

  // ---------------------------------------------------------------- printed text

  /** In front of any text that can be minified, `a` becomes `b`. */
  ghost predicate Becomes(a: text, b: text) {
    forall post :: Minify(post).Some? ==> Minify(a + post) == Prepend(b, Minify(post))
  }

  lemma {:induction false} BecomesConcat(a: text, b: text, a': text, b': text)
    requires Becomes(a, b) && Becomes(a', b')
    ensures Becomes(a + a', b + b')
  {
    hide Minify;
    forall post | Minify(post).Some?
      ensures Minify(a + a' + post) == Prepend(b + b', Minify(post))
    {
      assert a + a' + post == a + (a' + post);
      assert b + b' + Minify(post).value == b + (b' + Minify(post).value);
    }
  }

  lemma {:induction false} BecomesNothing()
    ensures Becomes([], [])
  {
    forall post: text | Minify(post).Some?
      ensures Minify([] + post) == Prepend([], Minify(post))
    {
      assert [] + post == post;
      assert [] + Minify(post).value == Minify(post).value;
    }
  }

  /** No white space, slash or quote. */
  predicate Plain(b: byte) {
    b != 9 && b != 10 && b != 13 && b != 32 && b != 34 && b != 47
  }

  lemma {:induction false} BecomesItself(a: text)
    requires forall i :: 0 <= i < |a| ==> Plain(a[i])
    ensures Becomes(a, a)
  {
    if a == [] {
      BecomesNothing();
    } else {
      var one := [a[0]];
      forall post | Minify(post).Some?
        ensures Minify(one + post) == Prepend(one, Minify(post))
      {
        assert (one + post)[1..] == post;
      }
      BecomesItself(a[1..]);
      BecomesConcat(one, one, a[1..], a[1..]);
      assert one + a[1..] == a;
    }
  }

  /** White space vanishes. */
  lemma {:induction false} SpaceVanishes(a: text)
    requires forall i :: 0 <= i < |a| ==> a[i] == 9 || a[i] == 10 || a[i] == 13 || a[i] == 32
    ensures Becomes(a, [])
  {
    BecomesNothing();
    if a != [] {
      var one := [a[0]];
      forall post | Minify(post).Some?
        ensures Minify(one + post) == Prepend([], Minify(post))
      {
        assert (one + post)[1..] == post;
        assert [] + Minify(post).value == Minify(post).value;
      }
      SpaceVanishes(a[1..]);
      BecomesConcat(one, [], a[1..], []);
      assert one + a[1..] == a;
    }
  }

  /** A comment vanishes up to the end of its line. */
  lemma {:induction false} LineVanishes(body: text, post: text)
    requires forall i :: 0 <= i < |body| ==> body[i] != 10
    ensures Minify([47, 47] + body + [10] + post) == Minify(post) && Minify([47, 47] + body) == Some([])
  {
    var r := [47, 47] + body + [10] + post;
    assert r[1..] == [47] + body + ([10] + post);
    LineSkips([47] + body, [10] + post);
    assert ([10] + post)[1..] == post;
    assert ([47, 47] + body)[1..] == [47] + body + [];
    LineSkips([47] + body, []);
  }

  lemma {:induction false} LineSkips(body: text, post: text)
    requires (forall i :: 0 <= i < |body| ==> body[i] != 10) && (post == [] || post[0] == 10)
    ensures SkipLine(body + post) == post
  {
    if body == [] {
      assert body + post == post;
    } else {
      assert (body + post)[1..] == body[1..] + post;
      LineSkips(body[1..], post);
    }
  }

  /** The first star with a slash behind it is at `|body|`. */
  ghost predicate ClosesAt(body: text, r: text) {
    |body| + 1 < |r| && r[..|body|] == body && r[|body|] == 42 && r[|body| + 1] == 47
    && forall i :: 0 <= i < |body| ==> !(r[i] == 42 && r[i + 1] == 47)
  }

  lemma {:induction false} CommentSkips(body: text, r: text)
    requires ClosesAt(body, r)
    ensures SkipComment(r) == r[|body|..]
  {
    if body != [] {
      assert r[1..][..|body| - 1] == body[1..];
      forall i | 0 <= i < |body| - 1 ensures !(r[1..][i] == 42 && r[1..][i + 1] == 47) {
        assert r[1..][i] == r[i + 1] && r[1..][i + 1] == r[i + 2];
      }
      CommentSkips(body[1..], r[1..]);
      assert r[1..][|body| - 1..] == r[|body|..];
    }
  }

  /** A comment vanishes up to its first star and slash; the star that opens it counts. */
  lemma {:induction false} CommentVanishes(body: text, post: text)
    requires ClosesAt(body, body + [42, 47] + post) && (body == [] || body[0] == 42)
    ensures Minify([47] + body + [42, 47] + post) == Minify(post)
  {
    var r := [47] + body + [42, 47] + post;
    assert r[1..] == body + [42, 47] + post;
    CommentSkips(body, r[1..]);
    assert r[1..][|body|..][2..] == post;
  }

  lemma {:induction false} LiteralOverEscape(b: byte, r: text)
    requires SkipLiteral(r).Some?
    ensures SkipLiteral(EscapeByte(b) + r) == SkipLiteral(r)
  {
    var e := EscapeByte(b);
    if |e| == 1 {
      assert (e + r)[1..] == r;
    } else {
      assert (e + r)[2..] == e[2..] + r;
      if |e| == 6 {
        LiteralOverPlain(e[2..], r);
      } else {
        assert e[2..] + r == r;
      }
    }
  }

  lemma {:induction false} LiteralOverPlain(a: text, r: text)
    requires SkipLiteral(r).Some?
    requires forall i :: 0 <= i < |a| ==> a[i] != QUOTE && a[i] != BACKSLASH
    ensures SkipLiteral(a + r) == SkipLiteral(r)
  {
    if a == [] {
      assert a + r == r;
    } else {
      assert (a + r)[1..] == a[1..] + r;
      LiteralOverPlain(a[1..], r);
    }
  }

  lemma {:induction false} LiteralCloses(post: text)
    ensures SkipLiteral([QUOTE] + post) == Some(post)
  {
    assert ([QUOTE] + post)[1..] == post;
  }

  lemma {:induction false} LiteralOverEscaped(s: text, post: text)
    ensures SkipLiteral(Escape(s) + [QUOTE] + post) == Some(post)
    decreases |s|
  {
    hide EscapeByte, SkipLiteral;
    var r := Escape(s) + [QUOTE] + post;
    if s == [] {
      assert r == [QUOTE] + post;
      LiteralCloses(post);
    } else {
      LiteralOverEscaped(s[1..], post);
      LiteralOverEscape(s[0], Escape(s[1..]) + [QUOTE] + post);
      assert r == EscapeByte(s[0]) + (Escape(s[1..]) + [QUOTE] + post);
    }
  }

  /** A string literal is left untouched, whatever it holds. */
  lemma {:induction false} LiteralUntouched(s: text)
    ensures Becomes(Quote(s), Quote(s))
  {
    hide Escape, SkipLiteral;
    forall post | Minify(post).Some?
      ensures Minify(Quote(s) + post) == Prepend(Quote(s), Minify(post))
    {
      var r := Quote(s) + post;
      assert r[1..] == Escape(s) + [QUOTE] + post;
      LiteralOverEscaped(s, post);
      assert Literal(r) == Quote(s);
    }
  }

  lemma {:induction false} IntUntouched(n: int)
    ensures Becomes(PrintInt(n), PrintInt(n))
  {
    BecomesItself(PrintInt(n));
  }

  lemma {:induction false} NameUntouched(name: Option<text>)
    ensures Becomes(PrintName(name), PrintName(name))
  {
    if name.None? {
      LiteralUntouched([]);
      assert Quote([]) == [QUOTE, QUOTE];
    } else {
      LiteralUntouched(name.value);
    }
  }

  lemma {:induction false} GapVanishes(fmt: bool, a: text)
    requires forall i :: 0 <= i < |a| ==> IsSpace(a[i])
    ensures Becomes(If(fmt, a), If(false, a))
  {
    SpaceVanishes(If(fmt, a));
  }

  /** Minifying a printed value gives its unformatted text. */
  lemma {:induction false} MinifyPrinted(t: Json, depth: nat, fmt: bool)
    requires Printable(t)
    ensures Becomes(PrintValue(t, depth, fmt), PrintValue(t, depth, false))
    decreases t, 2
  {
    hide Becomes, Quote, PrintInt, PrintItems, PrintMembers;
    match t
    case Number(d) => IntUntouched(d.Floor);
    case String(s) => LiteralUntouched(s);
    case Array(k) =>
      BecomesItself([LBRACKET]);
      BecomesItself([RBRACKET]);
      if k.Nil? {
        BecomesItself([LBRACKET, RBRACKET]);
      } else {
        MinifyItems(k, depth + 1, fmt);
        var f, u := PrintItems(k, depth + 1, fmt), PrintItems(k, depth + 1, false);
        BecomesConcat([LBRACKET], [LBRACKET], f, u);
        BecomesConcat([LBRACKET] + f, [LBRACKET] + u, [RBRACKET], [RBRACKET]);
      }
    case Object(k) => MinifyObject(k, depth, fmt);
    case _ => BecomesItself(PrintValue(t, depth, fmt));
  }

  lemma {:induction false} MinifyItems(k: Kids, depth: nat, fmt: bool)
    requires PrintableKids(k)
    ensures Becomes(PrintItems(k, depth, fmt), PrintItems(k, depth, false))
    decreases k, 1
  {
    hide Becomes, PrintValue;
    if k.Nil? {
      BecomesNothing();
    } else {
      MinifyPrinted(k.value, depth, fmt);
      MinifyItems(k.rest, depth, fmt);
      SeparatorShrinks(k.rest, fmt);
      var v, v' := PrintValue(k.value, depth, fmt), PrintValue(k.value, depth, false);
      var c, c' := Separator(k.rest, fmt), Separator(k.rest, false);
      BecomesConcat(v, v', c, c');
      BecomesConcat(v + c, v' + c', PrintItems(k.rest, depth, fmt), PrintItems(k.rest, depth, false));
    }
  }

  lemma {:induction false} SeparatorShrinks(rest: Kids, fmt: bool)
    ensures Becomes(Separator(rest, fmt), Separator(rest, false))
  {
    hide Becomes;
    BecomesNothing();
    BecomesItself([COMMA]);
    GapVanishes(fmt, [SPACE]);
    BecomesConcat([COMMA], [COMMA], If(fmt, [SPACE]), []);
  }

  lemma {:induction false} MinifyObject(k: Kids, depth: nat, fmt: bool)
    requires PrintableKids(k)
    ensures Becomes(PrintValue(Object(k), depth, fmt), PrintValue(Object(k), depth, false))
    decreases k, 2
  {
    hide Becomes, PrintMembers, Tabs;
    BecomesItself([LBRACE]);
    BecomesItself([RBRACE]);
    GapVanishes(fmt, [NEWLINE]);
    TabsVanish(fmt, depth);
    MinifyMembers(k, depth + 1, fmt);
    var f, u := PrintMembers(k, depth + 1, fmt), PrintMembers(k, depth + 1, false);
    var a, a' := [LBRACE] + If(fmt, [NEWLINE]), [LBRACE] + If(false, [NEWLINE]);
    BecomesConcat([LBRACE], [LBRACE], If(fmt, [NEWLINE]), If(false, [NEWLINE]));
    BecomesConcat(a, a', f, u);
    BecomesConcat(a + f, a' + u, If(fmt, Tabs(depth)), If(false, Tabs(depth)));
    BecomesConcat(a + f + If(fmt, Tabs(depth)), a' + u + If(false, Tabs(depth)), [RBRACE], [RBRACE]);
  }

  lemma {:induction false} TabsVanish(fmt: bool, depth: nat)
    ensures Becomes(If(fmt, Tabs(depth)), If(false, Tabs(depth)))
  {
    GapVanishes(fmt, Tabs(depth));
  }

  lemma {:induction false} MinifyMembers(k: Kids, depth: nat, fmt: bool)
    requires PrintableKids(k)
    ensures Becomes(PrintMembers(k, depth, fmt), PrintMembers(k, depth, false))
    decreases k, 1
  {
    hide Becomes, PrintFromName, Tabs;
    if k.Nil? {
      BecomesNothing();
    } else {
      TabsVanish(fmt, depth);
      MinifyFromName(k, depth, fmt);
      BecomesConcat(If(fmt, Tabs(depth)), If(false, Tabs(depth)),
                    PrintFromName(k, depth, fmt), PrintFromName(k, depth, false));
    }
  }

  lemma {:induction false} MinifyFromName(k: Kids, depth: nat, fmt: bool)
    requires k.Cons? && PrintableKids(k)
    ensures Becomes(PrintFromName(k, depth, fmt), PrintFromName(k, depth, false))
    decreases k, 0
  {
    hide Becomes, PrintValue, PrintMembers, PrintName;
    var name := PrintName(k.name);
    var tab, tab' := If(fmt, [TAB]), If(false, [TAB]);
    var v, v' := PrintValue(k.value, depth, fmt), PrintValue(k.value, depth, false);
    var end, end' := MemberEnd(k.rest, fmt), MemberEnd(k.rest, false);
    NameUntouched(k.name);
    BecomesItself([COLON]);
    GapVanishes(fmt, [TAB]);
    MinifyPrinted(k.value, depth, fmt);
    MemberEndShrinks(k.rest, fmt);
    MinifyMembers(k.rest, depth, fmt);
    BecomesConcat(name, name, [COLON], [COLON]);
    BecomesConcat(name + [COLON], name + [COLON], tab, tab');
    BecomesConcat(name + [COLON] + tab, name + [COLON] + tab', v, v');
    BecomesConcat(name + [COLON] + tab + v, name + [COLON] + tab' + v', end, end');
    BecomesConcat(name + [COLON] + tab + v + end, name + [COLON] + tab' + v' + end',
                  PrintMembers(k.rest, depth, fmt), PrintMembers(k.rest, depth, false));
  }

  lemma {:induction false} MemberEndShrinks(rest: Kids, fmt: bool)
    ensures Becomes(MemberEnd(rest, fmt), MemberEnd(rest, false))
  {
    hide Becomes;
    BecomesItself(If(rest.Cons?, [COMMA]));
    GapVanishes(fmt, [NEWLINE]);
    BecomesConcat(If(rest.Cons?, [COMMA]), If(rest.Cons?, [COMMA]), If(fmt, [NEWLINE]), If(false, [NEWLINE]));
  }

  /** cJSON_Minify turns either print of any tree into its unformatted print, so it is idempotent on prints. */
  lemma MinifyPrint(t: Json, fmt: bool)
    requires Printable(t)
    ensures Minify(PrintValue(t, 0, fmt)) == Some(PrintValue(t, 0, false))
  {
    MinifyPrinted(t, 0, fmt);
    assert PrintValue(t, 0, fmt) + [] == PrintValue(t, 0, fmt);
    assert Minify([]) == Some([]);
    assert PrintValue(t, 0, false) + [] == PrintValue(t, 0, false);
  }
}
