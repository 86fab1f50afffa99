/** The SQL statement splitter of the migration runner (apps/backend/db_migrate.py).

    `words` stands for the characters on which Python's `str.isalnum` answers True; the
    results hold for every such set that has no white space, no semicolon and no dollar sign. */
module SqlSplitter {
  import opened PyText

  /** What the lexer is inside of; the source keeps this in four flags and `dollar_tag`. */
  datatype Mode = Default | LineComment | BlockComment | Quoted | Dollar(tag: string)

  /** One turn of the loop: keep `width` characters, or cut at a semicolon. */
  datatype Step = Keep(width: nat, next: Mode) | Cut

  predicate IsWord(words: set<char>, c: char) {
    c in words || c == '_'
  }

  ghost predicate Alphanumeric(words: set<char>) {
    forall c :: c in words ==> !IsSpace(c) && c != ';' && c != '$'
  }

  // ---------- The lexer, on the text still to be read ----------

  /** The length of the dollar tag at the start of `s`, 0 when there is none; `j` characters
      of it have been read. */
  function TagLength(words: set<char>, s: string, j: nat): (n: nat)
    requires j <= |s|
    ensures n != 0 ==> j < n <= |s| && s[n - 1] == '$' && forall i :: j <= i < n - 1 ==> IsWord(words, s[i])
    decreases |s| - j
  {
    if j == |s| then 0
    else if s[j] == '$' then j + 1
    else if IsWord(words, s[j]) then TagLength(words, s, j + 1)
    else 0
  }

  function DefaultStep(words: set<char>, s: string): (r: Step)
    requires s != []
    ensures r.Cut? <==> s[0] == ';'
    ensures r.Keep? ==> 1 <= r.width <= |s|
  {
    var nxt := if |s| > 1 then s[1..2] else "";
    if s[0] == '-' && nxt == "-" then Keep(2, LineComment)
    else if s[0] == '/' && nxt == "*" then Keep(2, BlockComment)
    else if s[0] == '\'' then Keep(1, Quoted)
    else if s[0] == '$' && TagLength(words, s, 1) != 0 then
      var n := TagLength(words, s, 1);
      Keep(n, Dollar(s[..n]))
    else if s[0] == ';' then Cut
    else Keep(1, Default)
  }

  function StepOf(words: set<char>, s: string, m: Mode): (r: Step)
    requires s != []
    ensures r.Cut? <==> m == Default && s[0] == ';'
    ensures r.Keep? ==> 1 <= r.width <= |s|
  {
    var nxt := if |s| > 1 then s[1..2] else "";
    match m
    case LineComment => Keep(1, if s[0] == '\n' then Default else LineComment)
    case BlockComment => if s[0] == '*' && nxt == "/" then Keep(2, Default) else Keep(1, BlockComment)
    case Quoted =>
      if s[0] != '\'' then Keep(1, Quoted)
      else if nxt == "'" then Keep(2, Quoted)
      else Keep(1, Default)
    case Dollar(tag) => if tag != "" && tag <= s then Keep(|tag|, Default) else Keep(1, m)
    case Default => DefaultStep(words, s)
  }

  /** The text between cuts, untrimmed; there is one piece more than there are cuts. */
  function Pieces(words: set<char>, s: string, m: Mode): (ps: seq<string>)
    ensures |ps| >= 1
    decreases |s|
  {
    if s == [] then [""]
    else match StepOf(words, s, m)
      case Cut => [""] + Pieces(words, s[1..], Default)
      case Keep(w, next) => Prepend(s[..w], Pieces(words, s[w..], next))
  }

  /** The mode in which the lexer leaves `s`. */
  function EndMode(words: set<char>, s: string, m: Mode): Mode
    decreases |s|
  {
    if s == [] then m
    else match StepOf(words, s, m)
      case Cut => EndMode(words, s[1..], Default)
      case Keep(w, next) => EndMode(words, s[w..], next)
  }

  function Prepend(t: string, ps: seq<string>): (r: seq<string>)
    requires |ps| >= 1
    ensures |r| == |ps|
  {
    [t + ps[0]] + ps[1..]
  }

  /** A piece becomes a statement unless it is blank. */
  function Kept(piece: string): seq<string> {
    if Strip(piece) == "" then [] else [Strip(piece)]
  }

  function Statements(ps: seq<string>): seq<string> {
    if ps == [] then [] else Kept(ps[0]) + Statements(ps[1..])
  }

  function Split(words: set<char>, sql: string): seq<string> {
    Statements(Pieces(words, sql, Default))
  }

  // ---------- The loop of _split_sql ----------

  function ModeOf(inLine: bool, inBlock: bool, inQuote: bool, inDollar: bool, tag: string): Mode {
    if inLine then LineComment
    else if inBlock then BlockComment
    else if inQuote then Quoted
    else if inDollar then Dollar(tag)
    else Default
  }

  /** The inner scan: `end` is the index of the closing dollar sign, or -1. */
  method ScanTag(words: set<char>, sql: string, i: nat) returns (end: int)
    requires i < |sql| && sql[i] == '$'
    ensures end == -1 <==> TagLength(words, sql[i..], 1) == 0
    ensures end != -1 ==> i < end < |sql| && TagLength(words, sql[i..], 1) == end - i + 1
  {
    var j: int := i + 1;
    while j < |sql| && sql[j] != '$'
      invariant i < j <= |sql|
      invariant TagLength(words, sql[i..], 1) == TagLength(words, sql[i..], j - i)
    {
      if !IsWord(words, sql[j]) {
        return -1;
      }
      j := j + 1;
    }
    end := if j < |sql| then j else -1;
  }

  method SplitSql(words: set<char>, sql: string) returns (statements: seq<string>)
    ensures statements == Split(words, sql)
  {
    Start(words, sql);
    hide Pieces, Statements, Prepend, Split, Strip, TagLength, Outlook, IsWord, StepOf, DefaultStep;
    statements := [];
    var buf := "";
    var inQuote, inLine, inBlock, inDollar := false, false, false, false;
    var tag := "";
    var i, n := 0, |sql|;
    while i < n
      invariant 0 <= i <= n == |sql|
      invariant inLine ==> !inBlock && !inQuote && !inDollar
      invariant inBlock ==> !inQuote && !inDollar
      invariant inQuote ==> !inDollar
      invariant Split(words, sql) ==
        statements + Outlook(words, sql, i, ModeOf(inLine, inBlock, inQuote, inDollar, tag), buf)
      decreases n - i
    {
      ghost var s, m := sql[i..], ModeOf(inLine, inBlock, inQuote, inDollar, tag);
      var ch := sql[i];
      var nxt := if i + 1 < n then sql[i + 1..i + 2] else "";
      StepHere(words, sql, i, m, ch, nxt);
      Resume(words, sql, i, m, buf);

      if inLine {
        if ch == '\n' {
          inLine := false;
        }
        buf := buf + [ch];
        i := i + 1;
        continue;
      }
      if inBlock {
        if ch == '*' && nxt == "/" {
          inBlock := false;
          buf := buf + ([ch] + nxt);
          i := i + 2;
          continue;
        }
        buf := buf + [ch];
        i := i + 1;
        continue;
      }
      if inQuote {
        buf := buf + [ch];
        if ch == '\'' {
          if nxt == "'" {
            assert buf + nxt == buf[..|buf| - 1] + sql[i..i + 2];
            buf := buf + nxt;
            i := i + 2;
            continue;
          }
          inQuote := false;
        }
        i := i + 1;
        continue;
      }
      if inDollar {
        if tag != "" && tag <= sql[i..] {
          assert tag == sql[i..i + |tag|];
          buf := buf + tag;
          i := i + |tag|;
          inDollar := false;
          tag := "";
          continue;
        }
        buf := buf + [ch];
        i := i + 1;
        continue;
      }

      if ch == '-' && nxt == "-" {
        inLine := true;
        buf := buf + ([ch] + nxt);
        i := i + 2;
        continue;
      }
      if ch == '/' && nxt == "*" {
        inBlock := true;
        buf := buf + ([ch] + nxt);
        i := i + 2;
        continue;
      }
      if ch == '\'' {
        inQuote := true;
        buf := buf + [ch];
        i := i + 1;
        continue;
      }
      if ch == '$' {
        var j := ScanTag(words, sql, i);
        if j != -1 {
          tag := sql[i..j + 1];
          assert tag == s[..j + 1 - i];
          inDollar := true;
          buf := buf + tag;
          i := j + 1;
          continue;
        }
      }
      if ch == ';' {
        var stmt := Strip(buf);
        if stmt != "" {
          statements := statements + [stmt];
        }
        buf := "";
        i := i + 1;
        continue;
      }
      buf := buf + [ch];
      i := i + 1;
    }
    Finish(words, sql, ModeOf(inLine, inBlock, inQuote, inDollar, tag), buf);
    var last := Strip(buf);
    if last != "" {
      statements := statements + [last];
    }
  }

  /** The statements still to be returned when `buf` is held and `sql[i..]` is unread. */
  function Outlook(words: set<char>, sql: string, i: nat, m: Mode, buf: string): seq<string>
    requires i <= |sql|
  {
    Statements(Prepend(buf, Pieces(words, sql[i..], m)))
  }

  /** The step at index `i` in terms of the two characters read there. */
  lemma StepHere(words: set<char>, sql: string, i: nat, m: Mode, ch: char, nxt: string)
    requires i < |sql| && ch == sql[i] && nxt == if i + 1 < |sql| then sql[i + 1..i + 2] else ""
    ensures [ch] == sql[i..i + 1] && (i + 1 < |sql| ==> [ch] + nxt == sql[i..i + 2])
    ensures var s := sql[i..];
      StepOf(words, s, m) == match m
        case LineComment => Keep(1, if ch == '\n' then Default else LineComment)
        case BlockComment => if ch == '*' && nxt == "/" then Keep(2, Default) else Keep(1, BlockComment)
        case Quoted =>
          if ch != '\'' then Keep(1, Quoted) else if nxt == "'" then Keep(2, Quoted) else Keep(1, Default)
        case Dollar(tag) => if tag != "" && tag <= s then Keep(|tag|, Default) else Keep(1, m)
        case Default =>
          var k := TagLength(words, s, 1);
          if ch == '-' && nxt == "-" then Keep(2, LineComment)
          else if ch == '/' && nxt == "*" then Keep(2, BlockComment)
          else if ch == '\'' then Keep(1, Quoted)
          else if ch == '$' && k != 0 then Keep(k, Dollar(s[..k]))
          else if ch == ';' then Cut
          else Keep(1, Default)
  {
    hide TagLength;
    var s := sql[i..];
    assert s[0] == ch && nxt == if |s| > 1 then s[1..2] else "";
  }

  lemma Start(words: set<char>, sql: string)
    ensures Split(words, sql) == Outlook(words, sql, 0, Default, "")
  {
    var ps := Pieces(words, sql, Default);
    assert sql[0..] == sql && "" + ps[0] == ps[0];
    assert Prepend("", ps) == ps;
  }

  lemma Finish(words: set<char>, sql: string, m: Mode, buf: string)
    ensures Outlook(words, sql, |sql|, m, buf) == Kept(buf)
  {
    hide Kept;
    assert sql[|sql|..] == "" && Pieces(words, "", m) == [""];
    assert Prepend(buf, [""]) == [buf] by {
      assert buf + "" == buf;
    }
    StatementsCons(buf, []);
  }

  lemma StatementsCons(p: string, ps: seq<string>)
    ensures Statements([p] + ps) == Kept(p) + Statements(ps)
  {
    hide Kept;
    assert ([p] + ps)[1..] == ps;
  }

  lemma PrependPrepend(t: string, u: string, ps: seq<string>)
    requires |ps| >= 1
    ensures Prepend(t, Prepend(u, ps)) == Prepend(t + u, ps)
    ensures Prepend("", ps) == ps
    ensures Prepend(t, [""] + ps) == [t] + ps
  {
    assert t + (u + ps[0]) == t + u + ps[0];
    assert "" + ps[0] == ps[0] && t + "" == t;
  }

  /** What one turn of the loop does to the statements still to come. */
  lemma Resume(words: set<char>, sql: string, i: nat, m: Mode, buf: string)
    requires i < |sql|
    ensures match StepOf(words, sql[i..], m)
      case Cut => Outlook(words, sql, i, m, buf) == Kept(buf) + Outlook(words, sql, i + 1, Default, "")
      case Keep(w, next) => Outlook(words, sql, i, m, buf) == Outlook(words, sql, i + w, next, buf + sql[i..i + w])
  {
    hide Kept, Statements, StepOf, Prepend;
    var s := sql[i..];
    match StepOf(words, s, m)
    case Cut =>
      assert s[1..] == sql[i + 1..];
      var rest := Pieces(words, sql[i + 1..], Default);
      PrependPrepend(buf, "", rest);
      StatementsCons(buf, rest);
    case Keep(w, next) =>
      assert s[w..] == sql[i + w..] && s[..w] == sql[i..i + w];
      PrependPrepend(buf, s[..w], Pieces(words, sql[i + w..], next));
  }
}
