/** The statement splitter of the migration runner: a six-state lexer over a SQL
    script that cuts at semicolons outside quotes and comments.

    `Advance` is one turn of the scanning loop as a function; `Segments` and `Final`
    run it to the end of the text.  `SplitSql` is the index-and-buffer loop itself. */
module SqlSplit {

  datatype State =
    | Normal
    | LineComment
    | BlockComment
    | SingleQuote
    | DoubleQuote
    | DollarQuote(tag: string)

  /** What one turn of the loop does: how many characters it consumes, the state it
      leaves, and whether it ends a statement. */
  datatype Turn = Turn(length: nat, next: State, cut: bool)

  /** Python's `str.isspace`, which decides what `str.strip` removes. */
  predicate IsSpace(c: char) {
    var n := c as int;
    || 0x09 <= n <= 0x0d || 0x1c <= n <= 0x20 || n == 0x85 || n == 0xa0 || n == 0x1680
    || 0x2000 <= n <= 0x200a || n == 0x2028 || n == 0x2029 || n == 0x202f || n == 0x205f || n == 0x3000
  }

  predicate IdentStart(c: char) {
    'A' <= c <= 'Z' || 'a' <= c <= 'z' || c == '_'
  }

  predicate IdentChar(c: char) {
    IdentStart(c) || '0' <= c <= '9'
  }

  function IdentLength(s: string): (n: nat)
    ensures n <= |s|
    ensures forall i :: 0 <= i < n ==> IdentChar(s[i])
    ensures n < |s| ==> !IdentChar(s[n])
  {
    if s == "" || !IdentChar(s[0]) then 0 else 1 + IdentLength(s[1..])
  }

  /** Length of the dollar tag (`$$` or `$name$`) that `s` begins with; 0 if there is none. */
  function TagLength(s: string): (n: nat)
    ensures n <= |s|
    ensures n != 0 ==> IsTag(s[..n])
  {
    if s == "" || s[0] != '$' then 0
    else
      var name := if |s| > 1 && IdentStart(s[1]) then IdentLength(s[1..]) else 0;
      if name + 1 < |s| && s[name + 1] == '$' then name + 2 else 0
  }

  predicate IsTag(t: string) {
    |t| >= 2 && t[0] == '$' && forall c | c in t :: c == '$' || IdentChar(c)
  }

  predicate Lexable(st: State) {
    st.DollarQuote? ==> IsTag(st.tag)
  }

  /** One turn of the scanning loop on the text that is left. */
  function Advance(st: State, s: string): (t: Turn)
    requires s != "" && Lexable(st)
    ensures 1 <= t.length <= |s| && Lexable(t.next)
    ensures t.cut ==> st.Normal? && s[0] == ';' && t == Turn(1, Normal, true)
  {
    var c := s[0];
    var d := if |s| > 1 then s[1..2] else "";
    match st
    case LineComment => Turn(1, if c == '\n' then Normal else st, false)
    case BlockComment => if c == '*' && d == "/" then Turn(2, Normal, false) else Turn(1, st, false)
    case SingleQuote => Quoted(st, '\'', c, d)
    case DoubleQuote => Quoted(st, '"', c, d)
    case DollarQuote(tag) => if tag <= s then Turn(|tag|, Normal, false) else Turn(1, st, false)
    case Normal =>
      if c == '-' && d == "-" then Turn(2, LineComment, false)
      else if c == '/' && d == "*" then Turn(2, BlockComment, false)
      else if c == '\'' then Turn(1, SingleQuote, false)
      else if c == '"' then Turn(1, DoubleQuote, false)
      else if TagLength(s) != 0 then Turn(TagLength(s), DollarQuote(s[..TagLength(s)]), false)
      else Turn(1, Normal, c == ';')
  }

  /** Inside a quoted literal: a doubled quote stays inside, a single one closes. */
  function Quoted(st: State, quote: char, c: char, d: string): Turn {
    if c != quote then Turn(1, st, false)
    else if d == [quote] then Turn(2, st, false)
    else Turn(1, Normal, false)
  }

  /** The raw segments between cuts, in order; `cur` is what the buffer already holds. */
  function Segments(st: State, s: string, cur: string): (segs: seq<string>)
    requires Lexable(st)
    ensures |segs| > 0
    decreases |s|
  {
    if s == "" then [cur]
    else
      var t := Advance(st, s);
      if t.cut then [cur] + Segments(Normal, s[1..], "")
      else Segments(t.next, s[t.length..], cur + s[..t.length])
  }

  /** The lexer state after all of `s`. */
  function Final(st: State, s: string): (end: State)
    requires Lexable(st)
    ensures Lexable(end)
    decreases |s|
  {
    if s == "" then st else var t := Advance(st, s); Final(t.next, s[t.length..])
  }

  function StripLeft(s: string): string {
    if s != "" && IsSpace(s[0]) then StripLeft(s[1..]) else s
  }

  function StripRight(s: string): string {
    if s != "" && IsSpace(s[|s| - 1]) then StripRight(s[..|s| - 1]) else s
  }

  function Strip(s: string): string {
    StripRight(StripLeft(s))
  }

  /** The non-empty stripped segments, in order. */
  function Keep(segs: seq<string>): seq<string> {
    if segs == [] then []
    else (if Strip(segs[0]) != "" then [Strip(segs[0])] else []) + Keep(segs[1..])
  }

  function Split(sql: string): seq<string> {
    Keep(Segments(Normal, sql, ""))
  }

  /** One turn, seen from the statements still to come. */
  lemma TurnTaken(st: State, s: string, cur: string)
    requires s != "" && Lexable(st)
    ensures var t := Advance(st, s);
            Keep(Segments(st, s, cur)) ==
              if t.cut then Keep([cur]) + Keep(Segments(t.next, s[t.length..], ""))
              else Keep(Segments(t.next, s[t.length..], cur + s[..t.length]))
  {
    hide Advance, Lexable, IsTag, Strip;
    KeepOne(cur);
  }

  lemma KeepOne(cur: string)
    ensures Keep([cur]) == if Strip(cur) != "" then [Strip(cur)] else []
  {
    assert Keep([cur]) == (if Strip(cur) != "" then [Strip(cur)] else []) + Keep([]);
  }

  lemma KeepFirst(first: string, segs: seq<string>)
    ensures Keep([first] + segs) == (if Strip(first) != "" then [Strip(first)] else []) + Keep(segs)
  {
    assert ([first] + segs)[1..] == segs;
  }

  lemma BufferAtEnd(st: State, cur: string)
    requires Lexable(st)
    ensures Segments(st, "", cur) == [cur]
  {
  }

  /** The statements found so far and those still to come are those of the script. */
  ghost predicate Underway(sql: string, statements: seq<string>, st: State, index: nat, buffer: string)
    requires index <= |sql| && Lexable(st)
  {
    statements + Keep(Segments(st, sql[index..], buffer)) == Split(sql)
  }

  lemma SplitStarts(sql: string)
    ensures Underway(sql, [], Normal, 0, "")
  {
    assert sql[0..] == sql;
  }

  lemma CharsAhead(sql: string, index: nat)
    requires index < |sql|
    ensures sql[index..] != "" && sql[index..][0] == sql[index] && sql[index..index + 1] == [sql[index]]
    ensures Second(sql[index..]) == if index + 1 < |sql| then [sql[index + 1]] else ""
    ensures index + 1 < |sql| ==> sql[index..index + 2] == [sql[index]] + [sql[index + 1]]
  {
  }

  lemma TextAhead(sql: string, index: nat, n: nat)
    requires index + n <= |sql|
    ensures sql[index..][..n] == sql[index..index + n] && sql[index..][n..] == sql[index + n..]
  {
  }

  lemma TagAhead(sql: string, index: nat, tag: string)
    requires index <= |sql| && tag <= sql[index..]
    ensures index + |tag| <= |sql| && sql[index..index + |tag|] == tag
  {
  }

  /** One turn of the loop. */
  lemma TurnAt(sql: string, statements: seq<string>, st: State, index: nat, buffer: string)
    requires index < |sql| && Lexable(st) && Underway(sql, statements, st, index, buffer)
    ensures var t := Advance(st, sql[index..]);
            && 1 <= t.length && index + t.length <= |sql| && Lexable(t.next)
            && (!t.cut ==> Underway(sql, statements, t.next, index + t.length, buffer + sql[index..index + t.length]))
            && (t.cut && Strip(buffer) == "" ==> Underway(sql, statements, t.next, index + t.length, ""))
            && (t.cut && Strip(buffer) != "" ==>
                  Underway(sql, statements + [Strip(buffer)], t.next, index + t.length, ""))
  {
    hide Advance, Lexable, Segments, Keep, Strip;
    var t := Advance(st, sql[index..]);
    TurnTaken(st, sql[index..], buffer);
    KeepOne(buffer);
    TextAhead(sql, index, t.length);
    if t.cut {
      var rest := Keep(Segments(t.next, sql[index + t.length..], ""));
      assert [] + rest == rest;
      assert statements + ([Strip(buffer)] + rest) == statements + [Strip(buffer)] + rest;
    }
  }

  lemma AtEnd(sql: string, statements: seq<string>, st: State, buffer: string)
    requires Lexable(st) && Underway(sql, statements, st, |sql|, buffer)
    ensures Split(sql) == if Strip(buffer) != "" then statements + [Strip(buffer)] else statements
  {
    assert sql[|sql|..] == "";
    BufferAtEnd(st, buffer);
    KeepOne(buffer);
  }

  /** The character after the first one, if there is one. */
  function Second(s: string): string {
    if |s| > 1 then s[1..2] else ""
  }

  // One turn in each state, in the terms of the scanning loop.

  lemma LineCommentTurn(s: string)
    requires s != ""
    ensures Advance(LineComment, s) == Turn(1, if s[0] == '\n' then Normal else LineComment, false)
  {
  }

  lemma BlockCommentTurn(s: string)
    requires s != ""
    ensures Advance(BlockComment, s) == if s[0] == '*' && Second(s) == "/" then Turn(2, Normal, false)
            else Turn(1, BlockComment, false)
  {
  }

  lemma QuoteTurn(st: State, quote: char, s: string)
    requires s != "" && ((st == SingleQuote && quote == '\'') || (st == DoubleQuote && quote == '"'))
    ensures Advance(st, s) == if s[0] == quote && Second(s) == [quote] then Turn(2, st, false)
                              else Turn(1, if s[0] == quote then Normal else st, false)
  {
  }

  lemma DollarTurn(tag: string, s: string)
    requires s != "" && IsTag(tag)
    ensures Advance(DollarQuote(tag), s) == if tag <= s then Turn(|tag|, Normal, false)
            else Turn(1, DollarQuote(tag), false)
  {
    hide IsTag;
  }

  lemma NormalTurn(s: string)
    requires s != ""
    ensures Advance(Normal, s) ==
            if s[0] == '-' && Second(s) == "-" then Turn(2, LineComment, false)
            else if s[0] == '/' && Second(s) == "*" then Turn(2, BlockComment, false)
            else if s[0] == '\'' then Turn(1, SingleQuote, false)
            else if s[0] == '"' then Turn(1, DoubleQuote, false)
            else if TagLength(s) != 0 then Turn(TagLength(s), DollarQuote(s[..TagLength(s)]), false)
            else Turn(1, Normal, s[0] == ';')
  {
    hide TagLength;
  }

  /** The turns of the scanning loop inside comments and quotes. */
  method Inside(sql: string, index: nat, state: State, buffer: string) returns (index': nat, state': State,
                                                                                buffer': string)
    requires index < |sql| && Lexable(state) && state != Normal
    ensures index < index' <= |sql| && buffer' == buffer + sql[index..index']
    ensures Advance(state, sql[index..]) == Turn(index' - index, state', false)
  {
    hide IsTag, Advance, Quoted;
    var ch := sql[index];
    var next := if index + 1 < |sql| then [sql[index + 1]] else "";
    CharsAhead(sql, index);
    state' := state;
    if state.LineComment? {
      LineCommentTurn(sql[index..]);
      buffer', index' := buffer + [ch], index + 1;
      if ch == '\n' { state' := Normal; }
    } else if state.BlockComment? {
      BlockCommentTurn(sql[index..]);
      if ch == '*' && next == "/" {
        buffer', index', state' := buffer + ([ch] + next), index + 2, Normal;
      } else {
        buffer', index' := buffer + [ch], index + 1;
      }
    } else if state.SingleQuote? {
      QuoteTurn(state, '\'', sql[index..]);
      if ch == '\'' && next == "'" {
        buffer', index' := buffer + ([ch] + next), index + 2;
      } else {
        if ch == '\'' { state' := Normal; }
        buffer', index' := buffer + [ch], index + 1;
      }
    } else if state.DoubleQuote? {
      QuoteTurn(state, '"', sql[index..]);
      if ch == '"' && next == "\"" {
        buffer', index' := buffer + ([ch] + next), index + 2;
      } else {
        if ch == '"' { state' := Normal; }
        buffer', index' := buffer + [ch], index + 1;
      }
    } else {
      DollarTurn(state.tag, sql[index..]);
      if state.tag <= sql[index..] {
        TagAhead(sql, index, state.tag);
        buffer', index', state' := buffer + state.tag, index + |state.tag|, Normal;
      } else {
        buffer', index' := buffer + [ch], index + 1;
      }
    }
  }

  /** The scanning loop.  It refines the recursive lexer, buffer for buffer. */
  method SplitSql(sql: string) returns (statements: seq<string>)
    ensures statements == Split(sql)
    ensures exists spans :: InPlace(sql, statements, spans)
  {
    hide Strip, TagLength, IsTag, Split, Advance, Quoted, Underway, InPlace;
    statements := [];
    var buffer := "";
    var state := Normal;
    var index := 0;
    SplitStarts(sql);
    while index < |sql|
      invariant 0 <= index <= |sql| && Lexable(state)
      invariant Underway(sql, statements, state, index, buffer)
    {
      TurnAt(sql, statements, state, index, buffer);
      if state != Normal {
        index, state, buffer := Inside(sql, index, state, buffer);
        continue;
      }
      var ch := sql[index];
      var next := if index + 1 < |sql| then [sql[index + 1]] else "";
      CharsAhead(sql, index);
      NormalTurn(sql[index..]);
      if ch == '-' && next == "-" {
        buffer, index, state := buffer + ([ch] + next), index + 2, LineComment;
      } else if ch == '/' && next == "*" {
        buffer, index, state := buffer + ([ch] + next), index + 2, BlockComment;
      } else if ch == '\'' {
        buffer, index, state := buffer + [ch], index + 1, SingleQuote;
      } else if ch == '"' {
        buffer, index, state := buffer + [ch], index + 1, DoubleQuote;
      } else {
        var tag := TagLength(sql[index..]);
        TextAhead(sql, index, tag);
        if tag != 0 {
          state := DollarQuote(sql[index..][..tag]);
          buffer, index := buffer + state.tag, index + tag;
        } else if ch == ';' {
          var statement := Strip(buffer);
          if statement != "" { statements := statements + [statement]; }
          buffer, index := "", index + 1;
        } else {
          buffer, index := buffer + [ch], index + 1;
        }
      }
    }
    AtEnd(sql, statements, state, buffer);
    var statement := Strip(buffer);
    if statement != "" { statements := statements + [statement]; }
    ghost var spans := StatementsInPlace(sql);
  }

  // ----- nothing is lost -----

  function Join(parts: seq<string>, sep: string): string {
    if parts == [] then ""
    else if |parts| == 1 then parts[0]
    else parts[0] + sep + Join(parts[1..], sep)
  }

  lemma JoinFirst(first: string, rest: seq<string>, sep: string)
    requires rest != []
    ensures Join([first] + rest, sep) == first + sep + Join(rest, sep)
  {
    assert ([first] + rest)[1..] == rest;
  }

  lemma NoText(st: State, cur: string)
    requires Lexable(st)
    ensures Segments(st, "", cur) == [cur] && Final(st, "") == st && Join([cur], ";") == cur
  {
  }

  /** One turn, seen from the segments and the final state. */
  lemma SegmentsStep(st: State, s: string, cur: string)
    requires s != "" && Lexable(st)
    ensures var t := Advance(st, s);
            && Final(st, s) == Final(t.next, s[t.length..])
            && Segments(st, s, cur) == if t.cut then [cur] + Segments(Normal, s[1..], "")
                                       else Segments(t.next, s[t.length..], cur + s[..t.length])
  {
    hide Advance, Lexable;
  }

  /** The raw segments, rejoined with the semicolons that separated them, are the script. */
  lemma {:induction false} SegmentsLossless(st: State, s: string, cur: string)
    requires Lexable(st)
    ensures Join(Segments(st, s, cur), ";") == cur + s
    decreases |s|
  {
    hide Advance, Lexable, Segments, Final, Join;
    NoText(st, cur);
    if s != "" {
      var t := Advance(st, s);
      SegmentsStep(st, s, cur);
      if t.cut {
        SegmentsLossless(Normal, s[1..], "");
        JoinFirst(cur, Segments(Normal, s[1..], ""), ";");
        assert s == ";" + ("" + s[1..]);
        assert cur + ";" + ("" + s[1..]) == cur + s;
      } else {
        SegmentsLossless(t.next, s[t.length..], cur + s[..t.length]);
        assert cur + s == (cur + s[..t.length]) + s[t.length..];
      }
    }
  }

  // ----- locality: text after whitespace or a semicolon never changes how earlier text lexes -----

  predicate Neutral(c: char) {
    IsSpace(c) || c == ';'
  }

  lemma {:induction false} IdentLengthLocal(a: string, b: string)
    requires b == "" || !IdentChar(b[0])
    ensures IdentLength(a + b) == IdentLength(a)
  {
    if a == "" {
      assert a + b == b;
    } else {
      assert (a + b)[1..] == a[1..] + b;
      IdentLengthLocal(a[1..], b);
    }
  }

  lemma TagLocal(tag: string, a: string, b: string)
    requires IsTag(tag)
    requires b == "" || Neutral(b[0])
    ensures tag <= a + b <==> tag <= a
  {
    if |tag| > |a| {
      assert tag[|a|] in tag;
    }
  }

  lemma TagLengthLocal(a: string, b: string)
    requires a != ""
    requires b == "" || Neutral(b[0])
    ensures TagLength(a + b) == TagLength(a)
  {
    assert (a + b)[1..] == a[1..] + b;
    IdentLengthLocal(a[1..], b);
  }

  lemma AdvanceLocal(st: State, a: string, b: string)
    requires a != "" && Lexable(st)
    requires b == "" || Neutral(b[0])
    ensures Advance(st, a + b) == Advance(st, a)
  {
    hide TagLength, IsTag;
    if st.DollarQuote? { TagLocal(st.tag, a, b); }
    TagLengthLocal(a, b);
    assert (a + b)[..TagLength(a)] == a[..TagLength(a)];
    assert |a| > 1 ==> (a + b)[1..2] == a[1..2];
    assert |a| == 1 && b != "" ==> (a + b)[1..2] == [b[0]];
  }

  lemma AdvanceNeutral(st: State, s: string)
    requires s != "" && Lexable(st) && Neutral(s[0])
    ensures Advance(st, s) ==
            Turn(1, if st.LineComment? && s[0] == '\n' then Normal else st, st.Normal? && s[0] == ';')
  {
  }

  /** What the buffer held before only prefixes the first segment. */
  lemma {:induction false} BufferPrefixes(st: State, s: string, cur: string)
    requires Lexable(st)
    ensures var bare := Segments(st, s, "");
            Segments(st, s, cur) == [cur + bare[0]] + bare[1..]
    decreases |s|
  {
    hide Advance, Lexable, IsTag;
    assert cur + "" == cur;
    if s != "" {
      var t := Advance(st, s);
      if !t.cut {
        var head := s[..t.length];
        BufferPrefixes(t.next, s[t.length..], cur + head);
        BufferPrefixes(t.next, s[t.length..], "" + head);
        var bare := Segments(t.next, s[t.length..], "");
        assert cur + head + bare[0] == cur + ("" + head + bare[0]);
      }
    }
  }

  /** Lexing a text that continues neutrally is lexing the two parts one after the other. */
  lemma {:induction false} Compose(st: State, a: string, b: string, cur: string)
    requires Lexable(st)
    requires b == "" || Neutral(b[0])
    ensures var left := Segments(st, a, cur);
            Segments(st, a + b, cur) == left[..|left| - 1] + Segments(Final(st, a), b, left[|left| - 1])
    ensures Final(st, a + b) == Final(Final(st, a), b)
    decreases |a|
  {
    hide Advance, Lexable, IsTag, IsSpace, Segments, Final;
    if a == "" {
      NoText(st, cur);
      assert a + b == b && [cur][..0] + Segments(st, b, cur) == Segments(st, b, cur);
    } else {
      AdvanceLocal(st, a, b);
      var t := Advance(st, a);
      SegmentsStep(st, a, cur);
      SegmentsStep(st, a + b, cur);
      assert (a + b)[t.length..] == a[t.length..] + b;
      assert (a + b)[..t.length] == a[..t.length];
      if t.cut {
        Compose(Normal, a[1..], b, "");
        var rest := Segments(Normal, a[1..], "");
        assert ([cur] + rest)[..|rest|] == [cur] + rest[..|rest| - 1];
        assert [cur] + (rest[..|rest| - 1] + Segments(Final(Normal, a[1..]), b, rest[|rest| - 1]))
            == [cur] + rest[..|rest| - 1] + Segments(Final(Normal, a[1..]), b, rest[|rest| - 1]);
      } else {
        Compose(t.next, a[t.length..], b, cur + a[..t.length]);
      }
    }
  }

  // ----- cuts are exactly the semicolons met in the normal state -----

  /** Offsets in the script at which `segs` were separated, the first segment starting at `from`. */
  function CutOffsets(segs: seq<string>, from: nat): seq<nat> {
    if |segs| <= 1 then [] else [from + |segs[0]|] + CutOffsets(segs[1..], from + |segs[0]| + 1)
  }

  /** One turn, seen from the segments. */
  lemma TurnSegments(st: State, s: string)
    requires s != "" && Lexable(st)
    ensures var t := Advance(st, s);
            && Final(st, s) == Final(t.next, s[t.length..])
            && if t.cut then Segments(st, s, "") == [""] + Segments(Normal, s[1..], "")
               else
                 var rest := Segments(t.next, s[t.length..], "");
                 Segments(st, s, "") == [s[..t.length] + rest[0]] + rest[1..]
  {
    hide Advance, Lexable, IsTag;
    var t := Advance(st, s);
    if !t.cut {
      BufferPrefixes(t.next, s[t.length..], s[..t.length]);
      assert "" + s[..t.length] == s[..t.length];
    }
  }

  /** The first segment ends at the first cut, where the lexer is in the normal state. */
  lemma {:induction false} FirstCut(st: State, s: string)
    requires Lexable(st)
    ensures var segs := Segments(st, s, "");
            var p := |segs[0]|;
            && p <= |s| && segs[0] == s[..p]
            && Segments(st, s[..p], "") == [segs[0]]
            && (|segs| == 1 ==> p == |s|)
            && (|segs| > 1 ==>
                  && p < |s| && s[p] == ';' && Final(st, s[..p]) == Normal
                  && segs[1..] == Segments(Normal, s[p + 1..], ""))
    decreases |s|
  {
    hide Advance, Lexable, IsTag, IsSpace, Segments, Final;
    NoText(st, "");
    if s != "" {
      var t := Advance(st, s);
      TurnSegments(st, s);
      if t.cut {
        assert s[..0] == "";
      } else {
        FirstCut(t.next, s[t.length..]);
        FirstCutAfter(st, s, s[..t.length], s[t.length..]);
      }
    }
  }

  /** A turn without a cut puts its text before the first segment of the rest. */
  lemma FirstCutAfter(st: State, s: string, head: string, tail: string)
    requires s != "" && Lexable(st) && !Advance(st, s).cut
    requires head == s[..Advance(st, s).length] && tail == s[Advance(st, s).length..]
    requires var rest := Segments(Advance(st, s).next, tail, "");
             var q := |rest[0]|;
             && q <= |tail| && rest[0] == tail[..q]
             && Segments(Advance(st, s).next, tail[..q], "") == [rest[0]]
             && (q < |tail| ==> tail[q] == ';')
    ensures var q := |Segments(Advance(st, s).next, tail, "")[0]|;
            var p := |head| + q;
            && p <= |s| && s[..p] == head + tail[..q] && s[p..] == tail[q..]
            && Segments(st, s[..p], "") == [s[..p]]
            && Final(st, s[..p]) == Final(Advance(st, s).next, tail[..q])
  {
    hide Advance, Lexable, IsTag, IsSpace, Segments, Final;
    var t, q := Advance(st, s), |Segments(Advance(st, s).next, tail, "")[0]|;
    var p := |head| + q;
    assert s == head + tail;
    assert s[..p] == head + tail[..q] && s[p..] == tail[q..];
    assert s == s[..p] + s[p..];
    assert p < |s| ==> s[p..][0] == ';';
    AdvanceLocal(st, s[..p], s[p..]);
    TurnSegments(st, s[..p]);
    assert s[..p][..t.length] == head && s[..p][t.length..] == tail[..q];
  }

  lemma {:induction false} NoCutInside(st: State, s: string, i: nat)
    requires Lexable(st) && i < |s| && s[i] == ';'
    requires |Segments(st, s, "")| == 1
    ensures Final(st, s[..i]) != Normal
  {
    assert s == s[..i] + s[i..];
    Compose(st, s[..i], s[i..], "");
    assert Advance(Normal, s[i..]).cut;
  }

  /** A position is a cut iff it holds a semicolon and lexing the text before it, on its
      own, ends outside every quote and comment. */
  lemma {:induction false} CutsAreNormalSemicolons(st: State, s: string, from: nat, i: nat)
    requires Lexable(st) && i < |s|
    ensures from + i in CutOffsets(Segments(st, s, ""), from)
       <==> s[i] == ';' && Final(st, s[..i]) == Normal
    decreases |s|
  {
    hide Advance, Segments, Final, IsSpace, IsTag, CutOffsets;
    FirstCut(st, s);
    var segs := Segments(st, s, "");
    var p := |segs[0]|;
    CutOffsetsSplit(segs, from, from + i);
    if |segs| == 1 {
      if s[i] == ';' { NoCutInside(st, s, i); }
    } else {
      if i < p {
        if s[i] == ';' {
          assert s[..p][..i] == s[..i];
          NoCutInside(st, s[..p], i);
        }
      } else if i > p {
        CutsAreNormalSemicolons(Normal, s[p + 1..], from + p + 1, i - p - 1);
        FinalPastCut(st, s, p, i);
      }
    }
  }

  lemma FinalPastCut(st: State, s: string, p: nat, i: nat)
    requires Lexable(st) && p < i <= |s| && s[p] == ';' && Final(st, s[..p]) == Normal
    ensures Final(st, s[..i]) == Final(Normal, s[p + 1..][..i - p - 1])
  {
    hide Advance, Segments, Final, IsSpace;
    var k := i - p - 1;
    var cut := ";" + s[p + 1..][..k];
    FinalOfCut(s[p + 1..][..k]);
    assert s[..i] == s[..p] + cut;
    Compose(st, s[..p], cut, "");
  }

  lemma FinalOfCut(s: string)
    ensures Final(Normal, ";" + s) == Final(Normal, s)
  {
    hide Advance, IsSpace;
    AdvanceNeutral(Normal, ";" + s);
    assert (";" + s)[1..] == s;
  }

  lemma {:induction false} CutOffsetsAhead(segs: seq<string>, from: nat, o: nat)
    requires o in CutOffsets(segs, from)
    ensures o >= from
  {
    var next := from + |segs[0]|;
    assert CutOffsets(segs, from) == [next] + CutOffsets(segs[1..], next + 1);
    if o != next { CutOffsetsAhead(segs[1..], next + 1, o); }
  }

  /** The cut that ends the first segment comes before all others. */
  lemma CutOffsetsSplit(segs: seq<string>, from: nat, o: nat)
    ensures |segs| <= 1 ==> CutOffsets(segs, from) == []
    ensures |segs| > 1 ==>
              var next := from + |segs[0]|;
              var more := CutOffsets(segs[1..], next + 1);
              && (o in more ==> o > next)
              && (o in CutOffsets(segs, from) <==> o == next || o in more)
  {
    if |segs| > 1 {
      var next := from + |segs[0]|;
      var more := CutOffsets(segs[1..], next + 1);
      if o in more { CutOffsetsAhead(segs[1..], next + 1, o); }
      assert CutOffsets(segs, from) == [next] + more;
    }
  }

  // ----- splitting what was split and rejoined -----

  const SEPARATOR := "\n;\n"

  /** A statement that lexes to itself and, unless it is the last one, leaves the lexer
      where a newline brings it back to the normal state. */
  predicate Statement(t: string, last: bool) {
    && t != "" && Strip(t) == t
    && Segments(Normal, t, "") == [t]
    && (last || Final(Normal, t) in {Normal, LineComment})
  }

  predicate Statements(ts: seq<string>) {
    forall i | 0 <= i < |ts| :: Statement(ts[i], i == |ts| - 1)
  }

  /** All whitespace. */
  predicate Blank(s: string) {
    forall c | c in s :: IsSpace(c)
  }

  lemma {:induction false} StripLeftParts(s: string)
    ensures var n := |s| - |StripLeft(s)|;
            0 <= n && StripLeft(s) == s[n..] && Blank(s[..n])
    ensures StripLeft(s) != "" ==> !IsSpace(StripLeft(s)[0])
  {
    hide IsSpace;
    if s != "" && IsSpace(s[0]) {
      StripLeftParts(s[1..]);
      var n := |s| - |StripLeft(s)|;
      assert s[..n] == [s[0]] + s[1..][..n - 1];
    }
  }

  lemma {:induction false} StripRightParts(s: string)
    ensures |StripRight(s)| <= |s| && StripRight(s) == s[..|StripRight(s)|] && Blank(s[|StripRight(s)|..])
    ensures StripRight(s) != "" ==> !IsSpace(StripRight(s)[|StripRight(s)| - 1])
  {
    hide IsSpace;
    if s != "" && IsSpace(s[|s| - 1]) {
      var r := s[..|s| - 1];
      StripRightParts(r);
      var n := |StripRight(r)|;
      assert s[n..] == r[n..] + [s[|s| - 1]];
      assert r[..n] == s[..n];
    }
  }

  /** A segment is its stripped text between two blanks. */
  lemma StripParts(s: string) returns (lead: string, trail: string)
    ensures s == lead + (Strip(s) + trail) && Blank(lead) && Blank(trail)
    ensures Strip(s) != "" ==> !IsSpace(Strip(s)[0]) && !IsSpace(Strip(s)[|Strip(s)| - 1])
  {
    hide IsSpace;
    StripLeftParts(s);
    var n := |s| - |StripLeft(s)|;
    StripRightParts(s[n..]);
    lead, trail := s[..n], s[n..][|Strip(s)|..];
  }

  lemma {:induction false} StripPadded(lead: string, t: string, trail: string)
    requires Blank(lead) && Blank(trail)
    requires t != "" ==> !IsSpace(t[0]) && !IsSpace(t[|t| - 1])
    ensures Strip(lead + (t + trail)) == t
    decreases |lead| + |trail|
  {
    hide IsSpace;
    var s := lead + (t + trail);
    if lead != "" {
      assert lead[0] in lead;
      assert s[1..] == lead[1..] + (t + trail);
      StripPadded(lead[1..], t, trail);
    } else if trail == "" {
      assert s == t;
    } else {
      var z := trail[|trail| - 1];
      assert z in trail;
      if t == "" {
        assert s == trail && trail[0] in trail;
        assert trail[1..] == "" + ("" + trail[1..]);
        StripPadded("", t, trail[1..]);
      } else {
        assert StripLeft(s) == s;
        assert s[..|s| - 1] == "" + (t + trail[..|trail| - 1]);
        StripPadded("", t, trail[..|trail| - 1]);
        assert StripLeft(s[..|s| - 1]) == s[..|s| - 1];
      }
    }
  }

  /** Whitespace leaves every state as it is, except that a newline ends a line comment. */
  lemma {:induction false} BlankKeepsState(st: State, w: string)
    requires Lexable(st) && Blank(w)
    ensures Segments(st, w, "") == [w]
    ensures Final(st, w) == if st.LineComment? && '\n' in w then Normal else st
    decreases |w|
  {
    hide Advance, IsTag;
    if w != "" {
      assert w[0] in w;
      AdvanceNeutral(st, w);
      var t := Advance(st, w);
      BlankKeepsState(t.next, w[1..]);
      BufferPrefixes(t.next, w[1..], "" + w[..1]);
      assert w == "" + w[..1] + w[1..];
    }
  }

  /** A segment that ends at a cut strips to a statement that is fit to precede another. */
  lemma SegmentStatement(seg: string, last: bool)
    requires Segments(Normal, seg, "") == [seg]
    requires last || Final(Normal, seg) == Normal
    requires Strip(seg) != ""
    ensures Statement(Strip(seg), last)
  {
    hide Advance, IsTag, IsSpace;
    var t := Strip(seg);
    var lead, trail := StripParts(seg);
    StripPadded("", t, "");
    assert "" + (t + "") == t;
    var body := t + trail;
    BlankKeepsState(Normal, lead);
    LeadSkipped(lead, body);
    Compose(Normal, t, trail, "");
    var left := Segments(Normal, t, "");
    BlankKeepsState(Final(Normal, t), trail);
    BufferPrefixes(Final(Normal, t), trail, left[|left| - 1]);
    assert |Segments(Normal, body, "")| == |left|;
    BufferPrefixes(Normal, body, lead);
    assert |left| == 1;
    SegmentsLossless(Normal, t, "");
    assert Join(left, ";") == left[0] && "" + t == t;
  }

  /** Leading whitespace only goes into the buffer. */
  lemma {:induction false} LeadSkipped(lead: string, s: string)
    requires Blank(lead)
    ensures Segments(Normal, lead + s, "") == Segments(Normal, s, lead)
    ensures Final(Normal, lead + s) == Final(Normal, s)
    decreases |lead|
  {
    hide Advance, IsTag;
    if lead == "" {
      assert lead + s == s;
    } else {
      assert lead[0] in lead;
      var ls := lead + s;
      assert ls[1..] == lead[1..] + s;
      AdvanceNeutral(Normal, ls);
      assert Advance(Normal, ls) == Turn(1, Normal, false);
      LeadSkipped(lead[1..], s);
      BufferPrefixes(Normal, lead[1..] + s, "" + ls[..1]);
      BufferPrefixes(Normal, s, lead[1..]);
      BufferPrefixes(Normal, s, lead);
      assert lead == "" + ls[..1] + lead[1..];
      var bare := Segments(Normal, s, "");
      assert "" + ls[..1] + (lead[1..] + bare[0]) == lead + bare[0];
    }
  }

  /** Every output of the splitter is a sequence of statements. */
  lemma {:induction false} SplitGivesStatements(s: string)
    ensures Statements(Split(s))
    decreases |s|
  {
    hide Advance, Segments, Final, Strip;
    FirstCut(Normal, s);
    var segs := Segments(Normal, s, "");
    var rest := Keep(segs[1..]);
    if |segs| > 1 {
      SplitGivesStatements(s[|segs[0]| + 1..]);
    }
    if Strip(segs[0]) != "" {
      SegmentStatement(segs[0], |segs| == 1);
    }
  }

  /** Statements rejoined with newline, semicolon, newline split into themselves. */
  lemma {:induction false} StatementsSplitBack(ts: seq<string>)
    requires Statements(ts)
    ensures Split(Join(ts, SEPARATOR)) == ts
  {
    hide Advance, Segments, IsSpace, Final;
    BufferAtEnd(Normal, "");
    KeepOne("");
    if |ts| == 1 {
      KeepOne(ts[0]);
    } else if |ts| > 1 {
      assert Statements(ts[1..]);
      StatementsSplitBack(ts[1..]);
      StatementThenRest(ts[0], Join(ts[1..], SEPARATOR));
      assert [ts[0]] + ts[1..] == ts;
    }
  }

  lemma StatementThenRest(t: string, rest: string)
    requires Statement(t, false)
    ensures Split(t + SEPARATOR + rest) == [t] + Split(rest)
  {
    hide Advance, Strip;
    assert t + SEPARATOR + rest == t + (SEPARATOR + rest);
    Compose(Normal, t, SEPARATOR + rest, "");
    SeparatorCuts(Final(Normal, t), t, rest);
    LeadSkipped("\n", rest);
    var bare := Segments(Normal, rest, "");
    BufferPrefixes(Normal, rest, "\n");
    StripNewlines(t);
    StripNewlines(bare[0]);
    KeepFirst(t + "\n", Segments(Normal, "\n" + rest, ""));
    KeepFirst("\n" + bare[0], bare[1..]);
    KeepFirst(bare[0], bare[1..]);
    assert bare == [bare[0]] + bare[1..];
    var onward := Segments(Final(Normal, t), SEPARATOR + rest, t);
    assert [t][..0] + onward == onward;
  }

  /** A newline on either side does not survive stripping. */
  lemma StripNewlines(s: string)
    ensures Strip(s + "\n") == Strip(s) == Strip("\n" + s)
  {
    var lead, trail := StripParts(s);
    var t := Strip(s);
    assert s + "\n" == lead + (t + (trail + "\n"));
    StripPadded(lead, t, trail + "\n");
    assert "\n" + s == ("\n" + lead) + (t + trail);
    StripPadded("\n" + lead, t, trail);
  }

  lemma SeparatorCuts(st: State, cur: string, rest: string)
    requires st == Normal || st == LineComment
    ensures Segments(st, SEPARATOR + rest, cur) == [cur + "\n"] + Segments(Normal, "\n" + rest, "")
  {
    var s := SEPARATOR + rest;
    assert Advance(st, s) == Turn(1, Normal, false);
    assert s[..1] == "\n";
    assert s[1..] == ";\n" + rest;
    assert Advance(Normal, ";\n" + rest) == Turn(1, Normal, true);
    assert (";\n" + rest)[1..] == "\n" + rest;
  }

  /** For every script: splitting its rejoined statements gives back exactly those statements. */
  lemma SplitRoundTrip(sql: string)
    ensures Split(Join(Split(sql), SEPARATOR)) == Split(sql)
  {
    SplitGivesStatements(sql);
    StatementsSplitBack(Split(sql));
  }

  // ----- what the database is given, in the characters of the script -----

  /** The characters that Python counts as white space. */
  const WHITESPACE :=
    "\t\n\U{0B}\U{0C}\r\U{1C}\U{1D}\U{1E}\U{1F} \U{85}\U{A0}\U{1680}\U{2000}\U{2001}\U{2002}\U{2003}\U{2004}" +
    "\U{2005}\U{2006}\U{2007}\U{2008}\U{2009}\U{200A}\U{2028}\U{2029}\U{202F}\U{205F}\U{3000}"

  predicate White(c: char) {
    c in WHITESPACE
  }

  lemma SpaceListed(c: char)
    ensures IsSpace(c) <==> White(c)
  {
    var listed := WHITESPACE;
    assert |listed| == 29;
  }

  ghost predicate Cut(sql: string, i: nat)
    requires i < |sql|
  {
    sql[i] == ';' && Final(Normal, sql[..i]) == Normal
  }

  /** A non-empty text that begins and ends with something visible. */
  predicate Trimmed(t: string) {
    t != "" && !White(t[0]) && !White(t[|t| - 1])
  }

  /** The stretch of a script between two offsets. */
  datatype Span = Span(from: nat, to: nat)

  predicate Covered(spans: seq<Span>, i: nat) {
    exists k :: 0 <= k < |spans| && spans[k].from <= i < spans[k].to
  }

  ghost predicate CutWithin(sql: string, from: nat, to: nat) {
    exists i :: from <= i < to && i < |sql| && Cut(sql, i)
  }

  /** `ts` are the stretches `spans` of the script. */
  predicate Stretches(sql: string, ts: seq<string>, spans: seq<Span>) {
    && |spans| == |ts|
    && forall k | 0 <= k < |spans| ::
         spans[k].from <= spans[k].to <= |sql| && ts[k] == sql[spans[k].from..spans[k].to]
  }

  /** Any two of the stretches have a cut between them. */
  ghost predicate Apart(sql: string, spans: seq<Span>) {
    forall j, k | 0 <= j < k < |spans| :: CutWithin(sql, spans[j].to, spans[k].from)
  }

  /** No cut lies in the stretches, and nothing but cuts and white space outside them. */
  ghost predicate Whole(sql: string, spans: seq<Span>) {
    forall i | 0 <= i < |sql| :: if Covered(spans, i) then !Cut(sql, i) else White(sql[i]) || Cut(sql, i)
  }

  ghost predicate InPlace(sql: string, ts: seq<string>, spans: seq<Span>) {
    Stretches(sql, ts, spans) && Apart(sql, spans) && Whole(sql, spans) && forall t | t in ts :: Trimmed(t)
  }

  lemma CutsJoined(a: string, b: string, i: nat)
    requires Final(Normal, a) == Normal && i < |a + ";" + b|
    ensures i < |a| ==> (Cut(a + ";" + b, i) <==> Cut(a, i))
    ensures i == |a| ==> Cut(a + ";" + b, i)
    ensures i > |a| ==> (Cut(a + ";" + b, i) <==> Cut(b, i - |a| - 1))
  {
    hide Final;
    var s := a + ";" + b;
    if i <= |a| {
      assert s[..i] == a[..i] && a[..|a|] == a;
    } else {
      assert s[..|a|] == a && s[|a| + 1..] == b;
      FinalPastCut(Normal, s, |a|, i);
    }
  }

  function Moved(spans: seq<Span>, offset: nat): (r: seq<Span>)
    ensures |r| == |spans|
    ensures forall k | 0 <= k < |r| :: r[k] == Span(spans[k].from + offset, spans[k].to + offset)
  {
    seq(|spans|, k requires 0 <= k < |spans| => Span(spans[k].from + offset, spans[k].to + offset))
  }

  lemma CoveredJoined(ps: seq<Span>, qs: seq<Span>, n: nat, i: nat)
    requires forall k | 0 <= k < |ps| :: ps[k].to < n
    ensures Covered(ps + Moved(qs, n), i) <==> Covered(ps, i) || (i >= n && Covered(qs, i - n))
    ensures Covered(ps, i) ==> i < n - 1
  {
    var spans := ps + Moved(qs, n);
    if Covered(ps, i) {
      var k :| 0 <= k < |ps| && ps[k].from <= i < ps[k].to;
      assert spans[k] == ps[k];
    }
    if i >= n && Covered(qs, i - n) {
      var k :| 0 <= k < |qs| && qs[k].from <= i - n < qs[k].to;
      assert spans[|ps| + k].from <= i < spans[|ps| + k].to;
    }
  }

  lemma StretchesJoined(a: string, us: seq<string>, ps: seq<Span>, b: string, vs: seq<string>, qs: seq<Span>)
    requires Stretches(a, us, ps) && Stretches(b, vs, qs)
    ensures Stretches(a + ";" + b, us + vs, ps + Moved(qs, |a| + 1))
  {
    var s, ts, spans := a + ";" + b, us + vs, ps + Moved(qs, |a| + 1);
    forall k | 0 <= k < |spans|
      ensures spans[k].from <= spans[k].to <= |s| && ts[k] == s[spans[k].from..spans[k].to]
    {
      if k >= |ps| {
        var q := qs[k - |ps|];
        assert s[|a| + 1..] == b;
        assert s[spans[k].from..spans[k].to] == s[|a| + 1..][q.from..q.to];
      }
    }
  }

  lemma CutHere(sql: string, from: nat, i: nat, to: nat)
    requires from <= i < to && i < |sql| && Cut(sql, i)
    ensures CutWithin(sql, from, to)
  {
    hide Cut;
  }

  lemma CutFound(sql: string, from: nat, to: nat) returns (i: nat)
    requires CutWithin(sql, from, to)
    ensures from <= i < to && i < |sql| && Cut(sql, i)
  {
    hide Cut;
    i :| from <= i < to && i < |sql| && Cut(sql, i);
  }

  lemma CutWithinJoined(a: string, b: string, from: nat, to: nat)
    requires Final(Normal, a) == Normal
    ensures CutWithin(a, from, to) ==> CutWithin(a + ";" + b, from, to)
    ensures from <= |a| < to ==> CutWithin(a + ";" + b, from, to)
    ensures CutWithin(b, from, to) ==> CutWithin(a + ";" + b, from + (|a| + 1), to + (|a| + 1))
  {
    hide Final, Cut, CutWithin;
    var s := a + ";" + b;
    if CutWithin(a, from, to) {
      var i := CutFound(a, from, to);
      CutsJoined(a, b, i);
      CutHere(s, from, i, to);
    }
    if from <= |a| < to {
      CutsJoined(a, b, |a|);
      CutHere(s, from, |a|, to);
    }
    if CutWithin(b, from, to) {
      var i := CutFound(b, from, to);
      CutsJoined(a, b, i + |a| + 1);
      CutHere(s, from + (|a| + 1), i + |a| + 1, to + (|a| + 1));
    }
  }

  lemma ApartJoined(a: string, ps: seq<Span>, b: string, qs: seq<Span>)
    requires Final(Normal, a) == Normal && forall k | 0 <= k < |ps| :: ps[k].to <= |a|
    requires Apart(a, ps) && Apart(b, qs)
    ensures Apart(a + ";" + b, ps + Moved(qs, |a| + 1))
  {
    hide Final, CutWithin, Apart;
    ApartLeft(a, ps, b);
    ApartRight(a, b, qs);
    forall p, q | p in ps && q in Moved(qs, |a| + 1)
      ensures CutWithin(a + ";" + b, p.to, q.from)
    {
      CutWithinJoined(a, b, p.to, q.from);
    }
    AllApart(a + ";" + b, ps, Moved(qs, |a| + 1));
  }

  lemma ApartLeft(a: string, ps: seq<Span>, b: string)
    requires Final(Normal, a) == Normal && Apart(a, ps)
    ensures Apart(a + ";" + b, ps)
  {
    hide Final, CutWithin;
    forall j, k | 0 <= j < k < |ps| ensures CutWithin(a + ";" + b, ps[j].to, ps[k].from) {
      CutWithinJoined(a, b, ps[j].to, ps[k].from);
    }
  }

  lemma ApartRight(a: string, b: string, qs: seq<Span>)
    requires Final(Normal, a) == Normal && Apart(b, qs)
    ensures Apart(a + ";" + b, Moved(qs, |a| + 1))
  {
    hide Final, CutWithin;
    forall j, k | 0 <= j < k < |qs|
      ensures CutWithin(a + ";" + b, qs[j].to + (|a| + 1), qs[k].from + (|a| + 1))
    {
      CutWithinJoined(a, b, qs[j].to, qs[k].from);
    }
  }

  lemma AllApart(s: string, ps: seq<Span>, qs: seq<Span>)
    requires Apart(s, ps) && Apart(s, qs)
    requires forall p, q | p in ps && q in qs :: CutWithin(s, p.to, q.from)
    ensures Apart(s, ps + qs)
  {
    hide CutWithin;
  }

  lemma WholeJoined(a: string, ps: seq<Span>, b: string, qs: seq<Span>)
    requires Final(Normal, a) == Normal && forall k | 0 <= k < |ps| :: ps[k].to <= |a|
    requires Whole(a, ps) && Whole(b, qs)
    ensures Whole(a + ";" + b, ps + Moved(qs, |a| + 1))
  {
    hide Final, Cut, Covered, Moved, White;
    var s, spans := a + ";" + b, ps + Moved(qs, |a| + 1);
    forall i | 0 <= i < |s|
      ensures if Covered(spans, i) then !Cut(s, i) else White(s[i]) || Cut(s, i)
    {
      CutsJoined(a, b, i);
      CoveredJoined(ps, qs, |a| + 1, i);
      if i < |a| {
        assert s[i] == a[i];
      } else if i > |a| {
        assert s[i] == b[i - |a| - 1];
      }
    }
  }

  /** Two scripts with a semicolon between them. */
  lemma InPlaceJoined(a: string, us: seq<string>, ps: seq<Span>, b: string, vs: seq<string>, qs: seq<Span>)
    requires Final(Normal, a) == Normal && InPlace(a, us, ps) && InPlace(b, vs, qs)
    ensures InPlace(a + ";" + b, us + vs, ps + Moved(qs, |a| + 1))
  {
    hide Final, Apart, Whole, Trimmed;
    StretchesJoined(a, us, ps, b, vs, qs);
    ApartJoined(a, ps, b, qs);
    WholeJoined(a, ps, b, qs);
  }

  /** A segment without a cut is a statement between two stretches of white space, or white space. */
  lemma SegmentInPlace(seg: string) returns (spans: seq<Span>)
    requires Segments(Normal, seg, "") == [seg]
    ensures InPlace(seg, Keep([seg]), spans)
  {
    hide Final, IsSpace, White, Segments, Strip;
    var t := Strip(seg);
    var lead, trail := StripParts(seg);
    KeepOne(seg);
    forall c ensures IsSpace(c) <==> White(c) { SpaceListed(c); }
    spans := if t != "" then [Span(|lead|, |lead| + |t|)] else [];
    forall i | 0 <= i < |seg| ensures !Cut(seg, i) {
      if seg[i] == ';' { NoCutInside(Normal, seg, i); }
    }
    forall i | 0 <= i < |seg| && !Covered(spans, i) ensures White(seg[i]) {
      assert t != "" ==> !(spans[0].from <= i < spans[0].to);
      assert seg[i] in lead || seg[i] in trail;
    }
  }

  /** The statements are the script itself, apart from cut semicolons and white space around
      them, in order and with a cut between one and the next. */
  lemma {:induction false} StatementsInPlace(sql: string) returns (spans: seq<Span>)
    ensures InPlace(sql, Split(sql), spans)
    decreases |sql|
  {
    hide Advance, Segments, Final, Strip, InPlace;
    FirstCut(Normal, sql);
    var segs := Segments(Normal, sql, "");
    spans := SegmentInPlace(segs[0]);
    if |segs| == 1 {
      assert segs == [segs[0]] && segs[0] == sql;
    } else {
      var a, b := segs[0], sql[|segs[0]| + 1..];
      var rest := StatementsInPlace(b);
      InPlaceJoined(a, Keep([a]), spans, b, Split(b), rest);
      KeepOne(a);
      KeepFirst(a, segs[1..]);
      assert segs == [a] + segs[1..] && sql == a + ";" + b;
      spans := spans + Moved(rest, |a| + 1);
    }
  }

  /** A dollar tag is two dollar signs with nothing or a name between them. */
  lemma TagExactly(s: string, n: nat)
    requires 2 <= n <= |s|
    ensures TagLength(s) == n <==>
            && s[0] == '$' && s[n - 1] == '$' && (n > 2 ==> !('0' <= s[1] <= '9'))
            && forall i | 1 <= i < n - 1 ::
                 'A' <= s[i] <= 'Z' || 'a' <= s[i] <= 'z' || s[i] == '_' || '0' <= s[i] <= '9'
    ensures TagLength(s) != 1
  {
    if s[0] == '$' {
      var m := IdentLength(s[1..]);
      forall i | 1 <= i <= m ensures IdentChar(s[i]) {
        assert s[i] == s[1..][i - 1];
      }
      assert m < |s[1..]| ==> s[m + 1] == s[1..][m];
      if n - 2 < m { assert s[n - 1] == s[1..][n - 2]; }
    }
  }

  /** No quote, comment mark or dollar tag begins anywhere in `text`. */
  predicate Plain(text: string) {
    text == "" ||
    (&& text[0] != '\'' && text[0] != '"' && !("--" <= text) && !("/*" <= text) && TagLength(text) == 0
     && Plain(text[1..]))
  }

  /** Such a text leaves the lexer in the normal state. */
  lemma {:induction false} PlainTextStays(text: string)
    requires Plain(text)
    ensures Final(Normal, text) == Normal
    decreases |text|
  {
    hide TagLength, Advance, Lexable;
    if text != "" {
      PlainTextStays(text[1..]);
      NormalTurn(text);
      assert |text| > 1 ==> text[..2] == [text[0]] + Second(text);
      assert Advance(Normal, text) == Turn(1, Normal, text[0] == ';');
    }
  }

  // ----- what the lexer skips over whole: comments, literals and dollar-quoted bodies -----

  /** From `st`, the lexer passes over `text` without a cut and is then in the normal state. */
  ghost predicate PassedOver(st: State, text: string, rest: string)
    requires Lexable(st)
  {
    forall cur: string ::
      Segments(st, text + rest, cur) == Segments(Normal, rest, cur + text)
  }

  /** One uncut turn extends what is passed over. */
  lemma PassOverTurn(st: State, head: string, text: string, rest: string)
    requires Lexable(st) && head != ""
    requires var s := head + text + rest;
             var t := Advance(st, s); t.length == |head| && !t.cut && PassedOver(t.next, text, rest)
    ensures PassedOver(st, head + text, rest)
  {
    hide Advance;
    var s := head + text + rest;
    var t := Advance(st, s);
    assert s[t.length..] == text + rest && s[..t.length] == head;
    forall cur: string
      ensures Segments(st, head + text + rest, cur) == Segments(Normal, rest, cur + (head + text))
    {
      assert Segments(st, s, cur) == Segments(t.next, text + rest, cur + head);
      assert cur + head + text == cur + (head + text);
    }
  }

  lemma NothingPassed(rest: string)
    ensures PassedOver(Normal, "", rest)
  {
    forall cur: string ensures Segments(Normal, "" + rest, cur) == Segments(Normal, rest, cur + "") {
      assert "" + rest == rest && cur + "" == cur;
    }
  }

  /** The last turn of a construct. */
  lemma PassOverLast(st: State, tail: string, rest: string)
    requires Lexable(st) && tail != ""
    requires Advance(st, tail + rest) == Turn(|tail|, Normal, false)
    ensures PassedOver(st, tail, rest)
  {
    hide Advance;
    NothingPassed(rest);
    assert tail + "" + rest == tail + rest && tail + "" == tail;
    PassOverTurn(st, tail, "", rest);
  }

  lemma {:induction false} LineCommentBody(body: string, rest: string)
    requires '\n' !in body
    ensures PassedOver(LineComment, body + "\n", rest)
  {
    if body == "" {
      assert body + "\n" == "\n";
      PassOverLast(LineComment, "\n", rest);
    } else {
      LineCommentBody(body[1..], rest);
      assert body + "\n" == body[..1] + (body[1..] + "\n");
      PassOverTurn(LineComment, body[..1], body[1..] + "\n", rest);
    }
  }

  /** `mark` begins at none of the first `n` positions of `s`. */
  predicate Clear(mark: string, s: string, n: nat)
    requires n <= |s|
  {
    n == 0 || (!(mark <= s) && Clear(mark, s[1..], n - 1))
  }

  lemma {:induction false} BlockCommentBody(body: string, rest: string)
    requires Clear("*/", body + "*/" + rest, |body|)
    ensures PassedOver(BlockComment, body + "*/", rest)
  {
    if body == "" {
      assert body + "*/" == "*/";
      PassOverLast(BlockComment, "*/", rest);
    } else {
      var s := body + "*/" + rest;
      assert s[1..] == body[1..] + "*/" + rest;
      BlockCommentBody(body[1..], rest);
      assert body + "*/" == body[..1] + (body[1..] + "*/");
      assert body[..1] + (body[1..] + "*/") + rest == s;
      assert s[..2] == s[..1] + s[1..2];
      PassOverTurn(BlockComment, body[..1], body[1..] + "*/", rest);
    }
  }

  /** The literal's text with every quote doubled. */
  function Doubled(text: string, quote: char): string {
    if text == "" then ""
    else (if text[0] == quote then [quote, quote] else [text[0]]) + Doubled(text[1..], quote)
  }

  lemma {:induction false} QuotedBody(st: State, quote: char, text: string, rest: string)
    requires (st == SingleQuote && quote == '\'') || (st == DoubleQuote && quote == '"')
    requires rest == "" || rest[0] != quote
    ensures PassedOver(st, Doubled(text, quote) + [quote], rest)
  {
    if text == "" {
      assert Doubled(text, quote) + [quote] == [quote];
      assert |([quote] + rest)| > 1 ==> ([quote] + rest)[1..2] == [rest[0]];
      PassOverLast(st, [quote], rest);
    } else {
      QuotedBody(st, quote, text[1..], rest);
      var head := if text[0] == quote then [quote, quote] else [text[0]];
      var tail := Doubled(text[1..], quote) + [quote];
      assert Doubled(text, quote) + [quote] == head + tail;
      var s := head + tail + rest;
      if text[0] == quote {
        assert s[1] == quote && s[1..2] == [s[1]];
      }
      PassOverTurn(st, head, tail, rest);
    }
  }

  lemma {:induction false} DollarBody(tag: string, body: string, rest: string)
    requires IsTag(tag)
    requires Clear(tag, body + tag + rest, |body|)
    ensures PassedOver(DollarQuote(tag), body + tag, rest)
  {
    if body == "" {
      assert body + tag == tag;
      PassOverLast(DollarQuote(tag), tag, rest);
    } else {
      var s := body + tag + rest;
      assert body[1..] + tag + rest == s[1..];
      DollarBody(tag, body[1..], rest);
      assert body + tag == body[..1] + (body[1..] + tag);
      assert body[..1] + (body[1..] + tag) + rest == s;
      PassOverTurn(DollarQuote(tag), body[..1], body[1..] + tag, rest);
    }
  }

  /** A line comment is never cut, whatever it holds, and its newline ends it. */
  lemma LineCommentPassedOver(body: string, rest: string)
    requires '\n' !in body
    ensures PassedOver(Normal, "--" + (body + "\n"), rest)
  {
    LineCommentBody(body, rest);
    PassOverTurn(Normal, "--", body + "\n", rest);
  }

  /** A block comment runs to the first `*` `/` after its opening. */
  lemma BlockCommentPassedOver(body: string, rest: string)
    requires Clear("*/", body + "*/" + rest, |body|)
    ensures PassedOver(Normal, "/*" + (body + "*/"), rest)
  {
    BlockCommentBody(body, rest);
    PassOverTurn(Normal, "/*", body + "*/", rest);
  }

  /** A literal or quoted name may hold any text, its own quote doubled. */
  lemma LiteralPassedOver(body: string, quote: char, rest: string)
    requires quote == '\'' || quote == '"'
    requires rest == "" || rest[0] != quote
    ensures PassedOver(Normal, [quote] + (Doubled(body, quote) + [quote]), rest)
  {
    QuotedBody(if quote == '"' then DoubleQuote else SingleQuote, quote, body, rest);
    PassOverTurn(Normal, [quote], Doubled(body, quote) + [quote], rest);
  }

  /** A dollar-quoted body runs to the next occurrence of its own tag. */
  lemma DollarQuotePassedOver(name: string, body: string, rest: string)
    requires name == "" || IdentStart(name[0])
    requires forall c | c in name :: IdentChar(c)
    requires var tag := "$" + name + "$"; Clear(tag, body + tag + rest, |body|)
    ensures var tag := "$" + name + "$"; PassedOver(Normal, tag + (body + tag), rest)
  {
    hide PassedOver, Clear;
    var tag := "$" + name + "$";
    assert IsTag(tag) by {
      assert forall c | c in tag :: c == '$' || c in name;
    }
    DollarBody(tag, body, rest);
    TagOpens(name, body + tag + rest);
    assert tag + (body + tag + rest) == tag + (body + tag) + rest;
    PassOverTurn(Normal, tag, body + tag, rest);
  }

  lemma TagOpens(name: string, after: string)
    requires name == "" || IdentStart(name[0])
    requires forall c | c in name :: IdentChar(c)
    ensures var tag := "$" + name + "$"; TagLength(tag + after) == |tag| && (tag + after)[..|tag|] == tag
  {
    var s := "$" + name + "$" + after;
    assert s[1..] == name + ("$" + after);
    IdentLengthLocal(name, "$" + after);
    AllIdent(name);
  }

  lemma {:induction false} AllIdent(name: string)
    requires forall c | c in name :: IdentChar(c)
    ensures IdentLength(name) == |name|
  {
    if name != "" { AllIdent(name[1..]); }
  }
}
