/** What the splitter guarantees: the pieces spell the input, cuts fall exactly on the semicolons
    outside quotes, comments and dollar blocks, splitting is compositional, and splitting what it
    returned changes nothing. */
module SqlSplitterLaws {
  import opened PyText
  import opened SqlSplitter

  // ---------- Lookahead never passes an inert character ----------

  ghost predicate ValidMode(words: set<char>, m: Mode) {
    m.Dollar? ==> m.tag != "" && forall c :: c in m.tag ==> c == '$' || IsWord(words, c)
  }

  /** A character that can neither continue nor end a construct begun before it. */
  predicate Inert(words: set<char>, c: char) {
    c !in {'-', '*', '/', '\'', '$'} && !IsWord(words, c)
  }

  /** `x` can follow any text without changing how that text is read. */
  predicate Follows(words: set<char>, x: string) {
    x == "" || Inert(words, x[0])
  }

  lemma {:induction false} TagLengthFollowed(words: set<char>, s: string, x: string, j: nat)
    requires j <= |s| && Follows(words, x)
    ensures TagLength(words, s + x, j) == TagLength(words, s, j)
    decreases |s| - j
  {
    if j < |s| && s[j] != '$' && IsWord(words, s[j]) {
      TagLengthFollowed(words, s, x, j + 1);
    }
  }

  lemma StepFollowed(words: set<char>, s: string, x: string, m: Mode)
    requires s != "" && Follows(words, x) && ValidMode(words, m)
    ensures StepOf(words, s + x, m) == StepOf(words, s, m)
    ensures StepOf(words, s, m).Keep? ==> ValidMode(words, StepOf(words, s, m).next)
  {
    hide TagLength;
    var n := TagLength(words, s, 1);
    TagLengthFollowed(words, s, x, 1);
    assert (s + x)[..n] == s[..n];
    if m.Dollar? && x != "" && |s| < |m.tag| {
      assert m.tag[|s|] in m.tag;
      assert (s + x)[|s|] == x[0];
    }
    if |s| == 1 && x != "" {
      assert (s + x)[1..2] == x[..1];
    } else if |s| > 1 {
      assert (s + x)[1..2] == s[1..2];
    }
  }

  /** Continue the last piece of `ps` with the first of `qs`. */
  function Glue(ps: seq<string>, qs: seq<string>): seq<string>
    requires |ps| >= 1 && |qs| >= 1
  {
    ps[..|ps| - 1] + [ps[|ps| - 1] + qs[0]] + qs[1..]
  }

  lemma GluePrepend(t: string, ps: seq<string>, qs: seq<string>)
    requires |ps| >= 1 && |qs| >= 1
    ensures Glue(Prepend(t, ps), qs) == Prepend(t, Glue(ps, qs))
    ensures Glue([t] + ps, qs) == [t] + Glue(ps, qs)
    ensures Glue([t], qs) == Prepend(t, qs)
    ensures Glue(ps, [""] + qs) == ps + qs
  {
    var last := ps[|ps| - 1];
    assert last + "" == last;
    if |ps| == 1 {
      assert t + (ps[0] + qs[0]) == t + ps[0] + qs[0];
    }
  }

  /** Reading `s + x` is reading `s` and then, in the mode reached, `x`. */
  lemma {:induction false} PiecesFollowed(words: set<char>, s: string, x: string, m: Mode)
    requires Follows(words, x) && ValidMode(words, m)
    ensures Pieces(words, s + x, m) == Glue(Pieces(words, s, m), Pieces(words, x, EndMode(words, s, m)))
    ensures EndMode(words, s + x, m) == EndMode(words, x, EndMode(words, s, m))
    ensures ValidMode(words, EndMode(words, s, m))
    decreases |s|
  {
    hide Glue, Prepend, StepOf, Follows;
    if s == "" {
      assert s + x == x;
      GluePrepend("", Pieces(words, x, m), Pieces(words, x, m));
      PrependPrepend("", "", Pieces(words, x, m));
    } else {
      StepFollowed(words, s, x, m);
      match StepOf(words, s, m)
      case Cut =>
        assert (s + x)[1..] == s[1..] + x;
        PiecesFollowed(words, s[1..], x, Default);
        GluePrepend("", Pieces(words, s[1..], Default), Pieces(words, x, EndMode(words, s, m)));
      case Keep(w, next) =>
        assert (s + x)[w..] == s[w..] + x && (s + x)[..w] == s[..w];
        PiecesFollowed(words, s[w..], x, next);
        GluePrepend(s[..w], Pieces(words, s[w..], next), Pieces(words, x, EndMode(words, s, m)));
    }
  }

  /** A semicolon read in default mode cuts, whatever stands before and after it. */
  lemma CutBetween(words: set<char>, a: string, b: string)
    requires Alphanumeric(words) && EndMode(words, a, Default) == Default
    ensures Pieces(words, a + (";" + b), Default) == Pieces(words, a, Default) + Pieces(words, b, Default)
    ensures EndMode(words, a + (";" + b), Default) == EndMode(words, b, Default)
  {
    hide Glue;
    var x := ";" + b;
    assert x[1..] == b;
    PiecesFollowed(words, a, x, Default);
    GluePrepend("", Pieces(words, a, Default), Pieces(words, b, Default));
  }

  lemma {:induction false} StatementsConcat(ps: seq<string>, qs: seq<string>)
    ensures Statements(ps + qs) == Statements(ps) + Statements(qs)
  {
    hide Kept;
    if ps == [] {
      assert ps + qs == qs;
    } else {
      assert (ps + qs)[1..] == ps[1..] + qs;
      StatementsConcat(ps[1..], qs);
    }
  }

  /** Splitting is compositional at every semicolon that the lexer reaches in default mode. */
  lemma SplitIsCompositional(words: set<char>, a: string, b: string)
    requires Alphanumeric(words) && EndMode(words, a, Default) == Default
    ensures Split(words, a + ";" + b) == Split(words, a) + Split(words, b)
  {
    hide Statements;
    assert a + ";" + b == a + (";" + b);
    CutBetween(words, a, b);
    StatementsConcat(Pieces(words, a, Default), Pieces(words, b, Default));
  }

  // ---------- The pieces spell the input ----------

  function Join(ps: seq<string>, sep: string): string {
    if ps == [] then "" else if |ps| == 1 then ps[0] else ps[0] + sep + Join(ps[1..], sep)
  }

  lemma JoinPrepend(t: string, ps: seq<string>, sep: string)
    requires |ps| >= 1
    ensures Join(Prepend(t, ps), sep) == t + Join(ps, sep)
    ensures Join([t] + ps, sep) == t + sep + Join(ps, sep)
  {
    assert ([t] + ps)[1..] == ps;
    if |ps| > 1 {
      assert t + (ps[0] + sep + Join(ps[1..], sep)) == t + ps[0] + sep + Join(ps[1..], sep);
    }
  }

  lemma {:induction false} PiecesSpellTheInput(words: set<char>, s: string, m: Mode)
    ensures Join(Pieces(words, s, m), ";") == s
    decreases |s|
  {
    hide Join, StepOf, Prepend;
    if s == "" {
      JoinPrepend("", [""], ";");
      assert Join([""], ";") == "" by {
        JoinSingle("", ";");
      }
    } else {
      match StepOf(words, s, m)
      case Cut =>
        PiecesSpellTheInput(words, s[1..], Default);
        JoinPrepend("", Pieces(words, s[1..], Default), ";");
        assert "" + ";" + s[1..] == s;
      case Keep(w, next) =>
        PiecesSpellTheInput(words, s[w..], next);
        JoinPrepend(s[..w], Pieces(words, s[w..], next), ";");
        assert s[..w] + s[w..] == s;
    }
  }

  lemma JoinSingle(t: string, sep: string)
    ensures Join([t], sep) == t
  {
  }

  // ---------- Where the cuts fall ----------

  /** The places in the input, counted from `at`, at which consecutive pieces were cut apart. */
  function CutOffsets(ps: seq<string>, at: nat): set<nat> {
    if |ps| <= 1 then {} else {at + |ps[0]|} + CutOffsets(ps[1..], at + |ps[0]| + 1)
  }

  lemma CutOffsetsPrepend(t: string, ps: seq<string>, at: nat)
    requires |ps| >= 1
    ensures CutOffsets(Prepend(t, ps), at) == CutOffsets(ps, at + |t|)
    ensures CutOffsets([""] + ps, at) == {at} + CutOffsets(ps, at + 1)
  {
    assert ([""] + ps)[1..] == ps;
  }

  lemma {:induction false} CutOffsetsFrom(ps: seq<string>, at: nat)
    ensures forall k :: k in CutOffsets(ps, at) ==> at <= k
  {
    if |ps| > 1 {
      CutOffsetsFrom(ps[1..], at + |ps[0]| + 1);
    }
  }

  lemma NoSemicolonInToken(words: set<char>, s: string, m: Mode)
    requires s != "" && Alphanumeric(words) && ValidMode(words, m) && StepOf(words, s, m).Keep?
    requires m == Default || StepOf(words, s, m).width > 1
    ensures forall i :: 0 <= i < StepOf(words, s, m).width ==> s[i] != ';'
  {
    hide TagLength;
    if m.Dollar? {
      assert forall i :: 0 <= i < |m.tag| ==> m.tag[i] in m.tag;
    }
  }

  /** The mode before position `i` is the mode before it in what the first step leaves. */
  lemma EndModeAfterStep(words: set<char>, s: string, m: Mode, i: nat)
    requires Alphanumeric(words) && ValidMode(words, m) && i < |s| && s[i] == ';'
    requires StepOf(words, s, m).Keep? && StepOf(words, s, m).width <= i
    ensures EndMode(words, s[..i], m) ==
      EndMode(words, s[StepOf(words, s, m).width..][..i - StepOf(words, s, m).width], StepOf(words, s, m).next)
  {
    hide StepOf;
    var w := StepOf(words, s, m).width;
    StepFollowed(words, s[..i], s[i..], m);
    assert s[..i] + s[i..] == s;
    assert s[..i][w..] == s[w..][..i - w];
  }

  lemma {:induction false} CutsAt(words: set<char>, s: string, m: Mode, at: nat, i: nat)
    requires Alphanumeric(words) && ValidMode(words, m) && i < |s|
    ensures at + i in CutOffsets(Pieces(words, s, m), at) <==> s[i] == ';' && EndMode(words, s[..i], m) == Default
    decreases |s|
  {
    hide CutOffsets, Prepend, StepOf, Alphanumeric, Pieces, EndMode;
    match StepOf(words, s, m)
    case Cut =>
      var ps := Pieces(words, s[1..], Default);
      assert Pieces(words, s, m) == [""] + ps by { PiecesStep(words, s, m); }
      CutOffsetsPrepend("", ps, at);
      CutOffsetsFrom(ps, at + 1);
      EndModeStep(words, s[..i], m);
      if i > 0 {
        CutsAt(words, s[1..], Default, at + 1, i - 1);
        assert s[..i][1..] == s[1..][..i - 1];
      }
    case Keep(w, next) =>
      var ps := Pieces(words, s[w..], next);
      assert Pieces(words, s, m) == Prepend(s[..w], ps) by { PiecesStep(words, s, m); }
      CutOffsetsPrepend(s[..w], ps, at);
      CutOffsetsFrom(ps, at + w);
      StepFollowed(words, s, "", m);
      if i < w {
        if m == Default || w > 1 {
          NoSemicolonInToken(words, s, m);
        }
        EndModeStep(words, s[..i], m);
      } else {
        CutsAt(words, s[w..], next, at + w, i - w);
        if s[i] == ';' {
          EndModeAfterStep(words, s, m, i);
        }
      }
  }

  lemma PiecesStep(words: set<char>, s: string, m: Mode)
    requires s != ""
    ensures match StepOf(words, s, m)
      case Cut => Pieces(words, s, m) == [""] + Pieces(words, s[1..], Default)
      case Keep(w, next) => Pieces(words, s, m) == Prepend(s[..w], Pieces(words, s[w..], next))
  {
    hide StepOf, Prepend;
  }

  lemma EndModeStep(words: set<char>, s: string, m: Mode)
    ensures s == "" ==> EndMode(words, s, m) == m
    ensures s != "" && m == Default && s[0] == ';' ==> EndMode(words, s, m) == EndMode(words, s[1..], Default)
  {
  }

  /** The input is cut at exactly the semicolons that the text before them leaves in default
      mode, that is, outside every quote, comment and dollar block. */
  lemma CutsExactly(words: set<char>, s: string, i: nat)
    requires Alphanumeric(words) && i < |s|
    ensures i in CutOffsets(Pieces(words, s, Default), 0) <==> s[i] == ';' && EndMode(words, s[..i], Default) == Default
  {
    CutsAt(words, s, Default, 0, i);
  }

  // ---------- Closed quotes, comments and dollar blocks are read as one unit ----------

  lemma {:induction false} BodyIsSkipped(words: set<char>, body: string, rest: string, m: Mode)
    requires m != Default
    requires forall i :: 0 <= i < |body| ==> StepOf(words, body[i..] + rest, m) == Keep(1, m)
    ensures Pieces(words, body + rest, m) == Prepend(body, Pieces(words, rest, m))
    ensures EndMode(words, body + rest, m) == EndMode(words, rest, m)
  {
    hide Prepend, StepOf;
    if body == "" {
      assert body + rest == rest;
      PrependPrepend("", "", Pieces(words, rest, m));
    } else {
      assert body[0..] == body;
      assert forall i :: 0 <= i < |body| - 1 ==> body[1..][i..] == body[i + 1..];
      BodyIsSkipped(words, body[1..], rest, m);
      assert (body + rest)[1..] == body[1..] + rest && (body + rest)[..1] == body[..1];
      PrependPrepend(body[..1], body[1..], Pieces(words, rest, m));
      assert body[..1] + body[1..] == body;
    }
  }

  /** `open`, a skipped body and `close` are one unit, whatever follows. */
  lemma Enclosed(words: set<char>, open: string, body: string, close: string, rest: string, m: Mode)
    requires open != "" && close != ""
    requires StepOf(words, open + (body + (close + rest)), Default) == Keep(|open|, m)
    requires Pieces(words, body + (close + rest), m) == Prepend(body, Pieces(words, close + rest, m))
    requires EndMode(words, body + (close + rest), m) == EndMode(words, close + rest, m)
    requires StepOf(words, close + rest, m) == Keep(|close|, Default)
    ensures ReadAsUnit(words, open + body + close, rest)
  {
    hide StepOf, Prepend;
    var tail := close + rest;
    var s := open + (body + tail);
    assert s[|open|..] == body + tail && s[..|open|] == open;
    assert tail[|close|..] == rest && tail[..|close|] == close;
    PrependPrepend(body, close, Pieces(words, rest, Default));
    PrependPrepend(open, body + close, Pieces(words, rest, Default));
    assert open + (body + close) == open + body + close;
    assert open + body + close + rest == s;
  }

  /** `unit` goes whole into the current piece and leaves the lexer in default mode. */
  predicate ReadAsUnit(words: set<char>, unit: string, rest: string) {
    && Pieces(words, unit + rest, Default) == Prepend(unit, Pieces(words, rest, Default))
    && EndMode(words, unit + rest, Default) == EndMode(words, rest, Default)
  }

  lemma LineCommentIsUnit(words: set<char>, body: string, rest: string)
    requires '\n' !in body
    ensures ReadAsUnit(words, "--" + body + "\n", rest)
  {
    BodyIsSkipped(words, body, "\n" + rest, LineComment);
    Enclosed(words, "--", body, "\n", rest, LineComment);
  }

  lemma BlockCommentIsUnit(words: set<char>, body: string, rest: string)
    requires forall i :: 0 <= i < |body| ==> !("*/" <= (body + "*/")[i..])
    ensures ReadAsUnit(words, "/*" + body + "*/", rest)
  {
    hide Pieces, EndMode, ReadAsUnit;
    var text := body + ("*/" + rest);
    forall i | 0 <= i < |body|
      ensures StepOf(words, body[i..] + ("*/" + rest), BlockComment) == Keep(1, BlockComment)
    {
      var here := (body + "*/")[i..];
      assert body[i..] + ("*/" + rest) == here + rest;
      assert here[0] == '*' && here[1] == '/' ==> "*/" <= here;
    }
    BodyIsSkipped(words, body, "*/" + rest, BlockComment);
    Enclosed(words, "/*", body, "*/", rest, BlockComment);
  }

  /** Every quote in `body` is doubled. */
  predicate QuotesDoubled(body: string) {
    || body == ""
    || (body[0] != '\'' && QuotesDoubled(body[1..]))
    || (|body| > 1 && body[..2] == "''" && QuotesDoubled(body[2..]))
  }

  lemma {:induction false} QuotedBodyIsSkipped(words: set<char>, body: string, rest: string)
    requires QuotesDoubled(body)
    ensures Pieces(words, body + rest, Quoted) == Prepend(body, Pieces(words, rest, Quoted))
    ensures EndMode(words, body + rest, Quoted) == EndMode(words, rest, Quoted)
    decreases |body|
  {
    hide Prepend, StepOf;
    if body == "" {
      assert body + rest == rest;
      PrependPrepend("", "", Pieces(words, rest, Quoted));
    } else {
      var w := if body[0] == '\'' then 2 else 1;
      QuotedStep(words, body, rest);
      QuotedBodyIsSkipped(words, body[w..], rest);
      assert (body + rest)[w..] == body[w..] + rest && (body + rest)[..w] == body[..w];
      PrependPrepend(body[..w], body[w..], Pieces(words, rest, Quoted));
      assert body[..w] + body[w..] == body;
    }
  }

  lemma QuotedStep(words: set<char>, body: string, rest: string)
    requires body != "" && QuotesDoubled(body)
    ensures StepOf(words, body + rest, Quoted) == Keep(if body[0] == '\'' then 2 else 1, Quoted)
  {
    if body[0] == '\'' {
      assert body[..2][1] == body[1] == (body + rest)[1];
    }
  }

  lemma QuoteIsUnit(words: set<char>, body: string, rest: string)
    requires QuotesDoubled(body) && !("'" <= rest)
    ensures ReadAsUnit(words, "'" + body + "'", rest)
  {
    QuotedBodyIsSkipped(words, body, "'" + rest);
    Enclosed(words, "'", body, "'", rest, Quoted);
  }

  lemma {:induction false} TagLengthOf(words: set<char>, s: string, j: nat, n: nat)
    requires j < n <= |s| && s[n - 1] == '$'
    requires forall i :: j <= i < n - 1 ==> s[i] != '$' && IsWord(words, s[i])
    ensures TagLength(words, s, j) == n
    decreases n - j
  {
    if j < n - 1 {
      TagLengthOf(words, s, j + 1, n);
    }
  }

  /** A dollar tag holds alphanumeric characters and underscores, and the block it opens reaches
      to the first repetition of the tag. */
  lemma DollarBlockIsUnit(words: set<char>, name: string, body: string, rest: string)
    requires forall c :: c in name ==> c != '$' && (c in words || c == '_')
    requires forall i :: 0 <= i < |body| ==> !("$" + name + "$" <= (body + ("$" + name + "$"))[i..])
    ensures ReadAsUnit(words, "$" + name + "$" + body + ("$" + name + "$"), rest)
  {
    hide Pieces, EndMode, ReadAsUnit;
    var tag := "$" + name + "$";
    forall i | 0 <= i < |body|
      ensures StepOf(words, body[i..] + (tag + rest), Dollar(tag)) == Keep(1, Dollar(tag))
    {
      var here := (body + tag)[i..];
      assert body[i..] + (tag + rest) == here + rest;
      assert (here + rest)[..|tag|] == here[..|tag|];
    }
    BodyIsSkipped(words, body, tag + rest, Dollar(tag));
    var s := tag + (body + (tag + rest));
    forall i | 1 <= i < |tag| - 1
      ensures s[i] != '$' && IsWord(words, s[i])
    {
      assert s[i] == name[i - 1] && name[i - 1] in name;
    }
    TagLengthOf(words, s, 1, |tag|);
    assert s[..|tag|] == tag;
    Enclosed(words, tag, body, tag, rest, Dollar(tag));
  }

  /** So a block alone, whatever semicolons it holds, is one statement. */
  lemma BlockAloneIsOneStatement(words: set<char>, name: string, body: string)
    requires forall c :: c in name ==> c != '$' && (c in words || c == '_')
    requires forall i :: 0 <= i < |body| ==> !("$" + name + "$" <= (body + ("$" + name + "$"))[i..])
    ensures var block := "$" + name + "$" + body + ("$" + name + "$");
      Split(words, block) == [block]
  {
    hide Pieces, EndMode, Statements, Kept;
    var block := "$" + name + "$" + body + ("$" + name + "$");
    DollarBlockIsUnit(words, name, body, "");
    assert block + "" == block;
    PiecesOfNothing(words);
    PrependPrepend(block, "", [""]);
    StatementsCons(block, []);
    KeptWhole(block);
  }

  lemma PiecesOfNothing(words: set<char>)
    ensures Pieces(words, "", Default) == [""] && Statements([]) == []
  {
  }

  lemma KeptWhole(s: string)
    requires s != "" && s[0] == '$' && s[|s| - 1] == '$'
    ensures Kept(s) == [s]
  {
    TrimmedStays(s);
  }

  predicate LetterOrDigit(c: char) {
    '0' <= c <= '9' || 'A' <= c <= 'Z' || 'a' <= c <= 'z'
  }

  /** What is asked of the alphanumeric characters holds of those of ASCII. */
  lemma LettersAndDigits()
    ensures Alphanumeric(set c | LetterOrDigit(c))
  {
  }

  /** The text begins with a dollar sign that is repeated after nothing but alphanumeric
      characters and underscores. */
  ghost predicate BeginsWithTag(words: set<char>, s: string) {
    && "$" <= s
    && exists n :: 0 < n < |s| && s[n] == '$' && forall i :: 0 < i < n ==> s[i] in words || s[i] == '_'
  }

  lemma TagIsSpelled(words: set<char>, s: string)
    requires s != "" && s[0] == '$' && TagLength(words, s, 1) != 0
    ensures BeginsWithTag(words, s)
  {
    var n := TagLength(words, s, 1) - 1;
    assert s[n] == '$' && forall i :: 0 < i < n ==> IsWord(words, s[i]);
  }

  /** Outside every construct, a character that begins none of them is kept, and the lexer stays
      outside. */
  lemma PlainCharacterIsKept(words: set<char>, s: string)
    requires s != "" && s[0] !in {'\'', ';'} && !("--" <= s) && !("/*" <= s) && !BeginsWithTag(words, s)
    ensures ReadAsUnit(words, s[..1], s[1..])
  {
    assert StepOf(words, s, Default) == Keep(1, Default) by {
      hide TagLength, BeginsWithTag, ReadAsUnit;
      if s[0] == '$' && TagLength(words, s, 1) != 0 {
        TagIsSpelled(words, s);
      }
      assert |s| > 1 ==> s[1..2] == [s[1]] && s[..2] == [s[0], s[1]];
    }
    assert s[..1] + s[1..] == s;
  }

  /** A dollar sign whose name is cut short by any other character opens no block. */
  lemma BrokenTagOpensNothing(words: set<char>, name: string, x: char, rest: string)
    requires '$' !in name && x != '$' && x !in words && x != '_'
    ensures ReadAsUnit(words, "$", name + [x] + rest)
  {
    hide ReadAsUnit;
    var s := "$" + (name + [x] + rest);
    assert s[0] == '$' && s[|name| + 1] == x;
    assert forall i :: 0 < i < |name| + 1 ==> s[i] == name[i - 1] && s[i] in name;
    PlainCharacterIsKept(words, s);
    assert s[..1] == "$" && s[1..] == name + [x] + rest;
  }

  lemma {:induction false} WordIsKept(words: set<char>, name: string, rest: string)
    requires forall c :: c in name ==> c !in {'\'', ';', '-', '/', '$'}
    ensures ReadAsUnit(words, name, rest)
  {
    hide Pieces, EndMode, Prepend;
    if name == "" {
      assert name + rest == rest;
      PrependPrepend("", "", Pieces(words, rest, Default));
    } else {
      var s := name + rest;
      assert s[0] == name[0] && name[0] in name;
      PlainCharacterIsKept(words, s);
      assert s[..1] == name[..1] && s[1..] == name[1..] + rest;
      assert forall c :: c in name[1..] ==> c in name;
      WordIsKept(words, name[1..], rest);
      PrependPrepend(name[..1], name[1..], Pieces(words, rest, Default));
      assert name[..1] + (name[1..] + rest) == s && name[..1] + name[1..] == name;
    }
  }

  /** So the semicolon that cuts such a name short ends the statement. */
  lemma SemicolonAfterBrokenTagCuts(words: set<char>, name: string, rest: string)
    requires Alphanumeric(words)
    requires forall c :: c in name ==> (c in words || c == '_') && c !in {'\'', '-', '/'}
    ensures Split(words, "$" + name + ";" + rest) == ["$" + name] + Split(words, rest)
  {
    hide Pieces, EndMode, Statements;
    var t := "$" + name;
    assert name + ";" + rest == name + (";" + rest);
    BrokenTagOpensNothing(words, name, ';', rest);
    WordIsKept(words, name, ";" + rest);
    var tail := Pieces(words, ";" + rest, Default);
    assert tail == [""] + Pieces(words, rest, Default) by {
      PiecesStep(words, ";" + rest, Default);
      assert (";" + rest)[1..] == rest;
    }
    PrependPrepend("$", name, tail);
    PrependPrepend(t, "", Pieces(words, rest, Default));
    assert t + ";" + rest == "$" + (name + ";" + rest);
    assert Pieces(words, t + ";" + rest, Default) == [t] + Pieces(words, rest, Default);
    StatementsCons(t, Pieces(words, rest, Default));
    assert t[|t| - 1] == '$' || t[|t| - 1] in name;
    TrimmedStays(t);
  }

  // ---------- Splitting what the splitter returned ----------

  /** Every piece, read again on its own, is again one piece; all but the last leave the lexer
      in default mode. */
  lemma {:induction false} PiecesAreWhole(words: set<char>, s: string, m: Mode, k: nat)
    requires Alphanumeric(words) && ValidMode(words, m) && k < |Pieces(words, s, m)|
    ensures var ps, from := Pieces(words, s, m), if k == 0 then m else Default;
      && Pieces(words, ps[k], from) == [ps[k]]
      && EndMode(words, ps[k], from) == if k == |ps| - 1 then EndMode(words, s, m) else Default
    decreases |s|
  {
    hide StepOf, ValidMode, Alphanumeric;
    if s != "" {
      PiecesStep(words, s, m);
      StepFollowed(words, s, "", m);
      match StepOf(words, s, m)
      case Cut =>
        if k > 0 {
          DefaultIsValid(words);
          PiecesAreWhole(words, s[1..], Default, k - 1);
        }
      case Keep(w, next) =>
        PiecesAreWhole(words, s[w..], next, k);
        if k == 0 {
          FirstPiece(words, s, m);
        }
    }
  }

  lemma DefaultIsValid(words: set<char>)
    ensures ValidMode(words, Default)
  {
  }

  lemma FirstPieceIsFollowed(words: set<char>, s: string, m: Mode) returns (x: string)
    requires Alphanumeric(words)
    ensures s == Pieces(words, s, m)[0] + x && Follows(words, x)
  {
    hide Pieces;
    var ps := Pieces(words, s, m);
    PiecesSpellTheInput(words, s, m);
    x := if |ps| == 1 then "" else ";" + Join(ps[1..], ";");
    assert |ps| > 1 ==> ps[0] + ";" + Join(ps[1..], ";") == ps[0] + x;
  }

  /** One step of the first piece, read on its own, is one step of the whole text. */
  lemma FirstPiece(words: set<char>, s: string, m: Mode)
    requires s != "" && Alphanumeric(words) && ValidMode(words, m) && StepOf(words, s, m).Keep?
    ensures var w, next := StepOf(words, s, m).width, StepOf(words, s, m).next;
      var p := Pieces(words, s[w..], next)[0];
      && Pieces(words, s[..w] + p, m) == Prepend(s[..w], Pieces(words, p, next))
      && EndMode(words, s[..w] + p, m) == EndMode(words, p, next)
  {
    hide StepOf, Pieces, Prepend, Follows, Alphanumeric, ValidMode;
    var w, next := StepOf(words, s, m).width, StepOf(words, s, m).next;
    var p := Pieces(words, s[w..], next)[0];
    var x := FirstPieceIsFollowed(words, s[w..], next);
    assert s == s[..w] + p + x;
    StepFollowed(words, s[..w] + p, x, m);
    PiecesStep(words, s[..w] + p, m);
    assert (s[..w] + p)[w..] == p && (s[..w] + p)[..w] == s[..w];
  }

  /** White space at either end of a text changes neither the number of its pieces nor, apart
      from closing a line comment, the mode it ends in. */
  lemma {:induction false} LeadingSpace(words: set<char>, blank: string, s: string)
    requires Alphanumeric(words) && forall c :: c in blank ==> IsSpace(c)
    ensures Pieces(words, blank + s, Default) == Prepend(blank, Pieces(words, s, Default))
    ensures EndMode(words, blank + s, Default) == EndMode(words, s, Default)
  {
    hide Prepend, Alphanumeric;
    if blank == "" {
      assert blank + s == s;
      PrependPrepend("", "", Pieces(words, s, Default));
    } else {
      assert blank[0] in blank;
      assert (blank + s)[1..] == blank[1..] + s && (blank + s)[..1] == blank[..1];
      LeadingSpace(words, blank[1..], s);
      PrependPrepend(blank[..1], blank[1..], Pieces(words, s, Default));
      assert blank[..1] + blank[1..] == blank;
    }
  }

  lemma {:induction false} OnlySpace(words: set<char>, blank: string, m: Mode)
    requires Alphanumeric(words) && ValidMode(words, m) && forall c :: c in blank ==> IsSpace(c)
    ensures Pieces(words, blank, m) == [blank]
    ensures EndMode(words, blank, m) == if m == LineComment && '\n' in blank then Default else m
    decreases |blank|
  {
    if blank != "" {
      assert blank[0] in blank;
      if m.Dollar? {
        assert m.tag[0] in m.tag;
      }
      assert blank[..1] + blank[1..] == blank;
      var next := if m == LineComment && blank[0] == '\n' then Default else m;
      assert StepOf(words, blank, m) == Keep(1, next);
      OnlySpace(words, blank[1..], next);
      assert '\n' in blank <==> blank[0] == '\n' || '\n' in blank[1..];
    }
  }

  /** `Strip` removes white space from both ends and nothing else. */
  lemma StripFacts(p: string) returns (l: string, t: string)
    ensures p == l + Strip(p) + t
    ensures (forall i :: 0 <= i < |l| ==> IsSpace(l[i])) && (forall i :: 0 <= i < |t| ==> IsSpace(t[i]))
    ensures Strip(p) != "" ==> !IsSpace(Strip(p)[0]) && !IsSpace(Strip(p)[|Strip(p)| - 1])
  {
    hide IsSpace, StripLeft, StripRight;
    var r := StripLeft(p);
    var q := StripRight(r);
    l, t := p[..|p| - |r|], r[|q|..];
    assert q != "" ==> q[0] == r[0];
  }

  lemma StripPadded(q: string)
    requires q != "" && !IsSpace(q[0]) && !IsSpace(q[|q| - 1])
    ensures Strip(q) == q && Strip(q + "\n") == q
  {
    assert (q + "\n")[..|q|] == q;
  }

  lemma StripAfterNewline(p: string)
    ensures Strip("\n" + p) == Strip(p)
  {
    assert ("\n" + p)[1..] == p;
  }

  /** A trimmed, non-blank text that is one piece on its own. */
  ghost predicate Whole(words: set<char>, q: string) {
    && q != "" && !IsSpace(q[0]) && !IsSpace(q[|q| - 1])
    && Pieces(words, q, Default) == [q]
  }

  lemma SpaceIsInert(words: set<char>, t: string)
    requires Alphanumeric(words) && forall c :: c in t ==> IsSpace(c)
    ensures Follows(words, t)
  {
    if t != "" {
      assert t[0] in t;
    }
  }

  lemma TrimmedPieceIsWhole(words: set<char>, p: string)
    requires Alphanumeric(words) && Pieces(words, p, Default) == [p] && Strip(p) != ""
    ensures Whole(words, Strip(p))
    ensures EndMode(words, p, Default) == Default ==> EndMode(words, Strip(p), Default) in {Default, LineComment}
  {
    hide Pieces, EndMode, Strip, Alphanumeric, Prepend, Follows;
    var q := Strip(p);
    var l, t := StripFacts(p);
    assert p == l + (q + t);
    SpaceIsInert(words, t);
    LeadingSpace(words, l, q + t);
    PiecesFollowed(words, q, t, Default);
    OnlySpace(words, t, EndMode(words, q, Default));
    PiecesSpellTheInput(words, q, Default);
    JoinSingle(Pieces(words, q, Default)[0], ";");
  }

  lemma WholeSplitsToItself(words: set<char>, q: string)
    requires Whole(words, q)
    ensures Split(words, q) == [q]
  {
    hide Pieces;
    StripPadded(q);
    StatementsCons(q, []);
    assert [q] + [] == [q];
  }

  ghost predicate AllWhole(words: set<char>, sts: seq<string>) {
    && (forall k :: 0 <= k < |sts| ==> Whole(words, sts[k]))
    && forall k :: 0 <= k < |sts| - 1 ==> EndMode(words, sts[k], Default) in {Default, LineComment}
  }

  lemma {:induction false} StatementsAreWhole(words: set<char>, ps: seq<string>)
    requires Alphanumeric(words)
    requires forall k :: 0 <= k < |ps| ==> Pieces(words, ps[k], Default) == [ps[k]]
    requires forall k :: 0 <= k < |ps| - 1 ==> EndMode(words, ps[k], Default) == Default
    ensures AllWhole(words, Statements(ps))
  {
    hide Pieces, EndMode, Strip, Alphanumeric, Whole;
    if ps != [] {
      StatementsAreWhole(words, ps[1..]);
      if Strip(ps[0]) != "" {
        TrimmedPieceIsWhole(words, ps[0]);
        if |ps| == 1 {
          assert ps[1..] == [];
        }
      }
    }
  }

  lemma SplitIsWhole(words: set<char>, s: string)
    requires Alphanumeric(words)
    ensures AllWhole(words, Split(words, s))
  {
    hide Pieces, EndMode, Alphanumeric, Statements, AllWhole;
    var ps := Pieces(words, s, Default);
    forall k | 0 <= k < |ps|
      ensures Pieces(words, ps[k], Default) == [ps[k]]
      ensures k < |ps| - 1 ==> EndMode(words, ps[k], Default) == Default
    {
      PiecesAreWhole(words, s, Default, k);
    }
    StatementsAreWhole(words, ps);
  }

  /** Each returned statement splits to exactly itself, even one left inside a quote. */
  lemma EachStatementSplitsToItself(words: set<char>, s: string, k: nat)
    requires Alphanumeric(words) && k < |Split(words, s)|
    ensures Split(words, Split(words, s)[k]) == [Split(words, s)[k]]
  {
    hide Split, Whole, EndMode;
    SplitIsWhole(words, s);
    WholeSplitsToItself(words, Split(words, s)[k]);
  }

  lemma NewlineBefore(words: set<char>, s: string)
    requires Alphanumeric(words)
    ensures Split(words, "\n" + s) == Split(words, s)
  {
    hide Pieces, Strip;
    var ps := Pieces(words, s, Default);
    LeadingSpace(words, "\n", s);
    StripAfterNewline(ps[0]);
    StatementsCons("\n" + ps[0], ps[1..]);
    StatementsCons(ps[0], ps[1..]);
    assert ps == [ps[0]] + ps[1..];
  }

  lemma NewlineAfter(words: set<char>, q: string)
    requires Alphanumeric(words) && Whole(words, q) && EndMode(words, q, Default) in {Default, LineComment}
    ensures Split(words, q + "\n") == [q] && EndMode(words, q + "\n", Default) == Default
  {
    hide Pieces, Strip, EndMode;
    PiecesFollowed(words, q, "\n", Default);
    OnlySpace(words, "\n", EndMode(words, q, Default));
    assert Glue([q], ["\n"]) == [q + "\n"];
    StripPadded(q);
    StatementsCons(q + "\n", []);
    assert [q + "\n"] + [] == [q + "\n"];
    assert [q] + [] == [q];
  }

  lemma {:induction false} WholeStatementsRejoin(words: set<char>, sts: seq<string>)
    requires Alphanumeric(words) && AllWhole(words, sts)
    ensures Split(words, Join(sts, "\n;\n")) == sts
  {
    hide Split, Alphanumeric, Whole, EndMode;
    if sts == [] {
      SplitEmpty(words);
    } else if |sts| == 1 {
      WholeSplitsToItself(words, sts[0]);
    } else {
      var q, rest := sts[0], Join(sts[1..], "\n;\n");
      WholeStatementsRejoin(words, sts[1..]);
      NewlineAfter(words, q);
      NewlineBefore(words, rest);
      SplitIsCompositional(words, q + "\n", "\n" + rest);
      assert q + "\n;\n" + rest == (q + "\n") + ";" + ("\n" + rest);
    }
  }

  lemma SplitEmpty(words: set<char>)
    ensures Split(words, "") == []
  {
    StatementsCons("", []);
    assert [""] + [] == [""];
  }

  /** The round trip: joining the statements, each semicolon on its own line, and splitting
      again gives the same list, whatever the last statement leaves open. */
  lemma SplitRoundTrip(words: set<char>, s: string)
    requires Alphanumeric(words)
    ensures Split(words, Join(Split(words, s), "\n;\n")) == Split(words, s)
  {
    hide *;
    SplitIsWhole(words, s);
    WholeStatementsRejoin(words, Split(words, s));
  }

  lemma StripKeeps(p: string, i: nat)
    requires i < |p| && !IsSpace(p[0]) && !IsSpace(p[i])
    ensures i < |Strip(p)|
  {
    hide IsSpace, StripRight;
  }

  /** A semicolon that follows an unclosed construct is kept in the statement. */
  lemma SemicolonSwallowed(words: set<char>, q: string, rest: string)
    requires Alphanumeric(words) && Whole(words, q) && EndMode(words, q, Default) != Default
    ensures Split(words, q + ";" + rest) != [] && |q| < |Split(words, q + ";" + rest)[0]|
  {
    hide EndMode, Pieces, StepOf, Strip;
    var x, m := ";" + rest, EndMode(words, q, Default);
    PiecesFollowed(words, q, x, Default);
    PiecesStep(words, x, m);
    assert q + ";" + rest == q + x;
    var p := Pieces(words, q + x, Default)[0];
    assert p[0] == q[0] && p[|q|] == ';';
    StripKeeps(p, |q|);
  }

  /** Joining with a bare semicolon is a round trip exactly when no statement but the last ends
      inside a line comment. */
  lemma {:induction false} BareSemicolonRoundTrip(words: set<char>, sts: seq<string>)
    requires Alphanumeric(words) && AllWhole(words, sts)
    ensures Split(words, Join(sts, ";")) == sts
      <==> forall k :: 0 <= k < |sts| - 1 ==> EndMode(words, sts[k], Default) == Default
  {
    hide Split, Alphanumeric, Whole, EndMode;
    if sts == [] {
      SplitEmpty(words);
    } else if |sts| == 1 {
      WholeSplitsToItself(words, sts[0]);
    } else {
      var q, rest := sts[0], Join(sts[1..], ";");
      BareSemicolonRoundTrip(words, sts[1..]);
      if EndMode(words, q, Default) == Default {
        SplitIsCompositional(words, q, rest);
        WholeSplitsToItself(words, q);
        assert forall k :: 0 < k < |sts| - 1 ==> sts[k] == sts[1..][k - 1];
        assert sts == [q] + sts[1..];
        assert Split(words, q + ";" + rest) == [q] + Split(words, rest);
        assert ([q] + Split(words, rest))[1..] == Split(words, rest);
      } else {
        SemicolonSwallowed(words, q, rest);
      }
    }
  }

  /** It happens: `--` on its own line before a semicolon, and a statement after it. */
  lemma CommentBreaksBareJoin(words: set<char>)
    requires Alphanumeric(words)
    ensures Split(words, "--\n;\nb") == ["--", "b"] && Split(words, Join(["--", "b"], ";")) != ["--", "b"]
  {
    var comment, b := "--", "b";
    assert StepOf(words, comment, Default) == Keep(2, LineComment) && comment[2..] == "" && comment[..2] == comment;
    PiecesStep(words, comment, Default);
    assert comment + "" == comment && Pieces(words, "", LineComment) == [""];
    assert Pieces(words, comment, Default) == [comment];
    assert EndMode(words, comment, Default) == LineComment;
    assert StepOf(words, b, Default) == Keep(1, Default) && b[1..] == "" && b[..1] == b;
    PiecesStep(words, b, Default);
    assert b + "" == b && Pieces(words, "", Default) == [""];
    assert Pieces(words, b, Default) == [b];
    assert Whole(words, comment) && Whole(words, b);
    hide Pieces, EndMode, Split, Prepend, StepOf, Whole;
    var sts := [comment, b];
    assert Join(sts, "\n;\n") == "--\n;\nb" by {
      assert sts[1..] == [b];
      assert comment + "\n;\n" + b == "--\n;\nb";
    }
    WholeStatementsRejoin(words, sts);
    BareSemicolonRoundTrip(words, sts);
    assert EndMode(words, sts[0], Default) != Default;
  }
}
