/** What one header line means, that the case of field names is of no account, and with which status each fault
    of a header block is answered. */
module HttpLaws {
  import opened Http
  import opened HttpFrame

  // ---- One header line ----------------------------------------------------------------------------

  predicate Blank(s: seq<int>) { forall i :: 0 <= i < |s| ==> s[i] <= 32 }

  predicate Tight(s: seq<int>) { s != [] ==> s[0] > 32 && s[|s| - 1] > 32 }

  lemma {:induction false} TrimLeftBlank(p: seq<int>, s: seq<int>)
    requires Blank(p) && (s != [] ==> s[0] > 32)
    ensures TrimLeft(p + s) == s
  {
    if p == [] {
      assert p + s == s;
    } else {
      assert (p + s)[1..] == p[1..] + s;
      TrimLeftBlank(p[1..], s);
    }
  }

  lemma {:induction false} TrimRightBlank(s: seq<int>, q: seq<int>)
    requires Blank(q) && (s != [] ==> s[|s| - 1] > 32)
    ensures TrimRight(s + q) == s
    decreases |q|
  {
    if q == [] {
      assert s + q == s;
    } else {
      var t := s + q;
      assert t[..|t| - 1] == s + q[..|q| - 1];
      TrimRightBlank(s, q[..|q| - 1]);
    }
  }

  /** Blanks at both ends go, and nothing else. */
  lemma TrimIs(p: seq<int>, s: seq<int>, q: seq<int>)
    requires Blank(p) && Blank(q) && Tight(s)
    ensures Trim(p + s + q) == s
  {
    if s == [] {
      assert p + s + q == p + q && p + q == (p + q) + [];
      TrimLeftBlank(p + q, []);
      assert TrimRight([]) == [];
    } else {
      assert p + s + q == p + (s + q);
      TrimLeftBlank(p, s + q);
      TrimRightBlank(s, q);
    }
  }

  lemma {:induction false} FirstIndex(s: seq<int>, u: int, i: nat, k: nat)
    requires i <= k < |s| && s[k] == u && forall j :: i <= j < k ==> s[j] != u
    ensures IndexOf(s, u, i) == k
    decreases k - i
  {
    if i < k { FirstIndex(s, u, i + 1, k); }
  }

  /** What ASCII lower case is of each unit. */
  predicate Lowered(a: seq<int>, b: seq<int>) {
    |a| == |b| && forall i :: 0 <= i < |a| ==> b[i] == if 65 <= a[i] <= 90 then a[i] + 32 else a[i]
  }

  lemma LowerIs(s: seq<int>)
    ensures Lowered(s, Lower(s))
  {
  }

  /** A line that is a name, a colon, and a value among blanks is a field with that name in lower case and exactly
      that value. */
  lemma FieldParsed(name: seq<int>, p: seq<int>, value: seq<int>, q: seq<int>)
    requires Token(name) && Blank(p) && Blank(q) && Tight(value) && Printable(p) && Printable(value) && Printable(q)
    ensures var (status, field) := ParseField(name + [58] + p + value + q);
            status == 0 && field.value == value && Lowered(name, field.name)
  {
    var raw, rest := name + [58] + p + value + q, p + value + q;
    assert raw == name + [58] + rest;
    assert raw[|name|] == 58 && raw[..|name|] == name && raw[|name| + 1..] == rest;
    FirstIndex(raw, COLON, 0, |name|);
    TrimIs(p, value, q);
    LowerIs(name);
    forall i | 0 <= i < |raw| ensures (32 <= raw[i] <= 126) || raw[i] == 9 {
      if i >= |name| + 1 { assert raw[i] == rest[i - |name| - 1]; } else if i < |name| { assert raw[i] == name[i]; }
    }
    hide Lower, Lowered, Trim;
  }

  /** Every other line is answered with 400. */
  predicate Lineable(raw: seq<int>) {
    Printable(raw) && exists k :: 0 <= k < |raw| && raw[k] == 58 && Token(raw[..k])
  }

  lemma {:induction false} NoIndex(s: seq<int>, u: int, i: nat)
    requires i <= |s|
    ensures IndexOf(s, u, i) == -1 ==> forall j :: i <= j < |s| ==> s[j] != u
    ensures IndexOf(s, u, i) >= 0 ==> forall j :: i <= j < IndexOf(s, u, i) ==> s[j] != u
    decreases |s| - i
  {
    if i < |s| && s[i] != u { NoIndex(s, u, i + 1); }
  }

  lemma FieldRefused(raw: seq<int>)
    ensures ParseField(raw).0 == if Lineable(raw) then 0 else 400
  {
    NoIndex(raw, COLON, 0);
    var colon := IndexOf(raw, COLON, 0);
    if k :| 0 <= k < |raw| && raw[k] == 58 && Token(raw[..k]) {
      assert forall j :: 0 <= j < k ==> raw[j] == raw[..k][j];
      FirstIndex(raw, COLON, 0, k);
      assert k > 0;
    }
    hide Trim, Lower;
  }

  function Ascii(s: string): seq<int> { seq(|s|, i requires 0 <= i < |s| => s[i] as int) }

  /** The names that are looked for, and what names are made of. */
  lemma NamesSpelt()
    ensures HOST == Ascii("host") && CONTENT_LENGTH == Ascii("content-length")
    ensures TRANSFER_ENCODING == Ascii("transfer-encoding") && EXPECT == Ascii("expect")
  {
  }

  lemma TokenUnits(s: seq<int>)
    ensures Token(s) <==>
              s != [] && forall i :: 0 <= i < |s| ==>
                || ('0' as int <= s[i] <= '9' as int) || ('A' as int <= s[i] <= 'Z' as int)
                || ('a' as int <= s[i] <= 'z' as int) || s[i] == '-' as int
  {
    if Token(s) { forall i | 0 <= i < |s| ensures Word(s[i]) { } }
  }

  lemma PrintableUnits(s: seq<int>)
    ensures Printable(s) <==>
              forall i :: 0 <= i < |s| ==> ' ' as int <= s[i] <= '~' as int || s[i] == '\t' as int
  {
  }

  /** A line ends where a carriage return and a line feed stand, and a header at the first empty line. */
  lemma BreakIs(s: seq<int>, k: nat)
    requires Stands(s, k, Ascii("\r\n")) && forall i :: 0 <= i < k ==> !Stands(s, i, Ascii("\r\n"))
    ensures FirstBreak(s, 0) == k
  {
    forall i: nat ensures LineBreak(s, i) <==> Stands(s, i, Ascii("\r\n")) { MarkAt(s, i); }
    BreakAt(s, 0, k);
  }

  predicate Stands(s: seq<int>, i: nat, mark: seq<int>) { i + |mark| <= |s| && s[i..i + |mark|] == mark }

  lemma MarkAt(s: seq<int>, i: nat)
    ensures LineBreak(s, i) <==> Stands(s, i, Ascii("\r\n"))
  {
    assert Ascii("\r\n") == [13, 10];
    if i + 2 <= |s| { assert s[i..i + 2] == [s[i], s[i + 1]]; }
  }

  lemma HeaderIs(s: seq<int>, k: nat)
    requires Stands(s, k, Ascii("\r\n\r\n")) && forall i :: 0 <= i < k ==> !Stands(s, i, Ascii("\r\n\r\n"))
    ensures HeaderEnd(s, 0) == k + 4
  {
    forall i: nat ensures BlankLine(s, i) <==> Stands(s, i, Ascii("\r\n\r\n")) {
      assert Ascii("\r\n\r\n") == [13, 10, 13, 10];
      if i + 4 <= |s| { assert s[i..i + 4] == [s[i], s[i + 1], s[i + 2], s[i + 3]]; }
    }
    HeaderAt(s, 0, k);
  }

  lemma {:induction false} HeaderAt(s: seq<int>, i: nat, k: nat)
    requires i <= k && k + 4 <= |s| && BlankLine(s, k) && forall j :: i <= j < k ==> !BlankLine(s, j)
    ensures HeaderEnd(s, i) == k + 4
    decreases k - i
  {
    if i < k { HeaderAt(s, i + 1, k); }
  }

  // ---- The case of names --------------------------------------------------------------------------

  /** The same letters, in whatever case. */
  predicate SameLetters(a: seq<int>, b: seq<int>) {
    |a| == |b| && forall i :: 0 <= i < |a| ==> SameLetter(a[i], b[i])
  }

  predicate SameLetter(a: int, b: int) {
    a == b || (65 <= a <= 90 && b == a + 32) || (97 <= a <= 122 && b == a - 32)
  }

  /** Lines that differ at most in the case of what stands before the first colon. */
  ghost predicate SameLine(raw: seq<int>, raw': seq<int>) {
    |raw| == |raw'| && exists k :: Until(raw, raw', k)
  }

  predicate Until(raw: seq<int>, raw': seq<int>, k: int) {
    && 0 <= k <= |raw| == |raw'| && SameLetters(raw[..k], raw'[..k]) && raw[k..] == raw'[k..]
    && forall j :: 0 <= j < k ==> raw[j] != 58
  }

  lemma SameLower(a: seq<int>, b: seq<int>)
    requires SameLetters(a, b)
    ensures Lower(a) == Lower(b) && (Token(a) <==> Token(b)) && (Printable(a) <==> Printable(b))
    ensures forall j :: 0 <= j < |a| ==> (a[j] == 58 <==> b[j] == 58)
  {
    forall i | 0 <= i < |a| ensures Lower(a)[i] == Lower(b)[i] { assert SameLetter(a[i], b[i]); }
    forall j | 0 <= j < |a| ensures a[j] == 58 <==> b[j] == 58 { assert SameLetter(a[j], b[j]); }
    forall j | 0 <= j < |a|
      ensures (32 <= a[j] <= 126) || a[j] == 9 <==> (32 <= b[j] <= 126) || b[j] == 9
    {
      assert SameLetter(a[j], b[j]);
    }
    if Token(a) { forall i | 0 <= i < |b| ensures Word(b[i]) { assert SameLetter(a[i], b[i]) && Word(a[i]); } }
    if Token(b) { forall i | 0 <= i < |a| ensures Word(a[i]) { assert SameLetter(a[i], b[i]) && Word(b[i]); } }
    assert Lower(a) == Lower(b);
  }

  predicate Word(u: int) { 48 <= u <= 57 || 65 <= u <= 90 || 97 <= u <= 122 || u == 45 }

  lemma SameField(raw: seq<int>, raw': seq<int>)
    requires SameLine(raw, raw')
    ensures ParseField(raw) == ParseField(raw')
  {
    var k :| Until(raw, raw', k);
    SameLower(raw[..k], raw'[..k]);
    SamePrintable(raw, raw', k);
    NoIndex(raw, COLON, 0);
    NoIndex(raw', COLON, 0);
    var c, c' := IndexOf(raw, COLON, 0), IndexOf(raw', COLON, 0);
    SameColon(raw, raw', k);
    if c >= 0 {
      assert SameLetters(raw[..c], raw'[..c]) by {
        forall i | 0 <= i < c ensures SameLetter(raw[i], raw'[i]) {
          if i < k { assert SameLetter(raw[..k][i], raw'[..k][i]); } else { assert raw[i] == raw[k..][i - k]; }
        }
      }
      SameLower(raw[..c], raw'[..c]);
      assert raw[c + 1..] == raw'[c + 1..] by {
        forall i | c + 1 <= i < |raw| ensures raw[i] == raw'[i] { assert raw[i] == raw[k..][i - k]; }
      }
    }
    hide Lower, Trim, Token, Printable, IndexOf;
  }

  lemma SamePrintable(raw: seq<int>, raw': seq<int>, k: int)
    requires Until(raw, raw', k) && (Printable(raw[..k]) <==> Printable(raw'[..k]))
    ensures Printable(raw) <==> Printable(raw')
  {
    PrintableSplit(raw, k);
    PrintableSplit(raw', k);
    hide Printable;
  }

  lemma PrintableSplit(s: seq<int>, k: int)
    requires 0 <= k <= |s|
    ensures Printable(s) <==> Printable(s[..k]) && Printable(s[k..])
  {
    if Printable(s[..k]) && Printable(s[k..]) {
      forall i | 0 <= i < |s| ensures (32 <= s[i] <= 126) || s[i] == 9 {
        if i < k { assert s[i] == s[..k][i]; } else { assert s[i] == s[k..][i - k]; }
      }
    }
  }

  lemma SameColon(raw: seq<int>, raw': seq<int>, k: int)
    requires Until(raw, raw', k) && forall j :: 0 <= j < k ==> (raw[..k][j] == 58 <==> raw'[..k][j] == 58)
    ensures IndexOf(raw, COLON, 0) == IndexOf(raw', COLON, 0)
    ensures IndexOf(raw, COLON, 0) >= 0 ==> IndexOf(raw, COLON, 0) >= k
  {
    NoIndex(raw, COLON, 0);
    NoIndex(raw', COLON, 0);
    var c, c' := IndexOf(raw, COLON, 0), IndexOf(raw', COLON, 0);
    forall j | 0 <= j < k ensures raw[j] != 58 && raw'[j] != 58 {
      assert raw[..k][j] == raw[j] && raw'[..k][j] == raw'[j];
    }
    forall j | k <= j < |raw| ensures raw[j] == raw'[j] { assert raw[j] == raw[k..][j - k]; }
    if c >= 0 { FirstIndex(raw', COLON, 0, c); }
    if c' >= 0 { FirstIndex(raw, COLON, 0, c'); }
    hide IndexOf;
  }

  /** Header blocks that differ, from the header line at pos on, at most in the case of field names. */
  ghost predicate SameBlock(head: seq<int>, head': seq<int>, pos: nat)
    decreases |head| - pos
  {
    && |head| == |head'|
    && if pos + 2 >= |head| || FirstBreak(head, pos) < 0 then pos <= |head| ==> head[pos..] == head'[pos..]
       else
         var finish := FirstBreak(head, pos);
         && SameLine(head[pos..finish], head'[pos..finish])
         && head[finish..finish + 2] == head'[finish..finish + 2] && SameBlock(head, head', finish + 2)
  }

  lemma {:induction false} BreakAt(s: seq<int>, i: nat, k: nat)
    requires i <= k && LineBreak(s, k) && forall j :: i <= j < k ==> !LineBreak(s, j)
    ensures FirstBreak(s, i) == k
    decreases k - i
  {
    if i < k { BreakAt(s, i + 1, k); }
  }

  lemma SameBreak(head: seq<int>, head': seq<int>, pos: nat)
    requires pos + 2 < |head| && SameBlock(head, head', pos)
    ensures FirstBreak(head', pos) == FirstBreak(head, pos)
  {
    var finish := FirstBreak(head, pos);
    if finish < 0 {
      SameTail(head, head', pos);
    } else {
      var raw, raw' := head[pos..finish], head'[pos..finish];
      var k :| Until(raw, raw', k);
      assert head'[finish] == head'[finish..finish + 2][0] && head'[finish + 1] == head'[finish..finish + 2][1];
      assert head[finish] == head[finish..finish + 2][0] && head[finish + 1] == head[finish..finish + 2][1];
      forall j | pos <= j < finish ensures !LineBreak(head', j) {
        SameUnit(raw, raw', k, j - pos);
        if j + 1 < finish { SameUnit(raw, raw', k, j + 1 - pos); }
        assert raw[j - pos] == head[j] && raw'[j - pos] == head'[j] && !LineBreak(head, j);
        assert j + 1 < finish ==> raw[j + 1 - pos] == head[j + 1] && raw'[j + 1 - pos] == head'[j + 1];
      }
      BreakAt(head', pos, finish);
    }
  }

  lemma SameTail(s: seq<int>, t: seq<int>, pos: nat)
    requires pos <= |s| == |t| && s[pos..] == t[pos..]
    ensures forall j :: pos <= j ==> (LineBreak(t, j) <==> LineBreak(s, j))
  {
    forall j | pos <= j < |s| ensures t[j] == s[j] { assert t[j] == t[pos..][j - pos] && s[j] == s[pos..][j - pos]; }
  }

  /** Marks are no letters. */
  lemma SameUnit(raw: seq<int>, raw': seq<int>, k: int, j: int)
    requires Until(raw, raw', k) && 0 <= j < |raw|
    ensures (raw[j] == 13 <==> raw'[j] == 13) && (raw[j] == 10 <==> raw'[j] == 10)
  {
    if j < k { assert SameLetter(raw[..k][j], raw'[..k][j]); } else { assert raw[j] == raw[k..][j - k]; }
  }

  lemma {:induction false} SameFields(cfg: Config, maxHeaders: nat, head: seq<int>, head': seq<int>, pos: nat,
                                      seen: Seen)
    requires SameBlock(head, head', pos)
    ensures Fields(cfg, maxHeaders, head, pos, seen) == Fields(cfg, maxHeaders, head', pos, seen)
    decreases |head| - pos
  {
    if pos + 2 < |head| {
      SameBreak(head, head', pos);
      var finish := FirstBreak(head, pos);
      if finish >= 0 && seen.count != maxHeaders {
        SameField(head[pos..finish], head'[pos..finish]);
        var (status, field) := ParseField(head[pos..finish]);
        if status == 0 && Note(cfg, seen, field).Go? {
          SameFields(cfg, maxHeaders, head, head', finish + 2, Note(cfg, seen, field).seen);
        }
      }
      hide ParseField, Note, SameLine;
    }
  }

  /** Two header blocks with the same request line whose field names differ only in case are framed alike. */
  lemma CaseOfNames(cfg: Config, maxHeaders: nat, line: seq<int> -> Line, head: seq<int>, head': seq<int>)
    requires var lineEnd := FirstBreak(head, 0);
             lineEnd >= 0 && lineEnd + 2 <= |head'| && head[..lineEnd + 2] == head'[..lineEnd + 2]
             && SameBlock(head, head', lineEnd + 2)
    ensures Frame(cfg, maxHeaders, line, head') == Frame(cfg, maxHeaders, line, head)
  {
    hide Fields, FirstBreak, SameBlock, LineBreak;
    var lineEnd := FirstBreak(head, 0);
    SameRequest(head, head', lineEnd);
    SameFields(cfg, maxHeaders, head, head', lineEnd + 2, Seen(0, 0, false, 0, false));
  }

  lemma SameRequest(head: seq<int>, head': seq<int>, lineEnd: nat)
    requires lineEnd == FirstBreak(head, 0) && lineEnd + 2 <= |head'| && head[..lineEnd + 2] == head'[..lineEnd + 2]
    ensures FirstBreak(head', 0) == lineEnd && head'[..lineEnd] == head[..lineEnd]
    ensures forall j :: 0 <= j < lineEnd ==> head'[j] == head[j]
  {
    forall j | 0 <= j < lineEnd + 2 ensures head'[j] == head[j] {
      assert head'[j] == head'[..lineEnd + 2][j] == head[..lineEnd + 2][j];
    }
    assert forall j :: 0 <= j < lineEnd ==> (LineBreak(head', j) <==> LineBreak(head, j));
    BreakAt(head', 0, lineEnd);
  }

  // ---- Statuses -----------------------------------------------------------------------------------

  /** The digits at the front of the value already exceed the limit. */
  predicate Oversized(value: seq<int>, limit: nat) {
    exists m :: 0 < m <= |value| && Digits(value[..m]) && Number(value[..m]) > limit
  }

  lemma {:induction false} LengthStatus(value: seq<int>, i: nat, total: nat, limit: nat)
    requires i <= |value| && total <= limit && total == Number(value[..i])
    requires forall k :: 0 <= k < i ==> 48 <= value[k] <= 57
    requires forall m :: 0 < m <= i ==> Number(value[..m]) <= limit
    ensures var status := Length(value, i, total, limit).0;
            && (status == 413 <==> Oversized(value, limit))
            && (status == 400 <==> !Oversized(value, limit) && exists k :: 0 <= k < |value| && !(48 <= value[k] <= 57))
    decreases |value| - i
  {
    if i < |value| && 48 <= value[i] <= 57 {
      var next := total * 10 + value[i] - 48;
      assert value[..i + 1][..i] == value[..i];
      assert Number(value[..i + 1]) == next;
      if next <= limit {
        LengthStatus(value, i + 1, next, limit);
      } else {
        assert Digits(value[..i + 1]);
      }
    } else if i < |value| {
      forall m | i < m <= |value| ensures !Digits(value[..m]) { assert value[..m][i] == value[i]; }
    }
  }

  /** The field after `earlier` ones is refused with this status. */
  predicate FieldFault(cfg: Config, earlier: seq<Field>, field: Field, status: int) {
    if field.name == HOST then status == 400 && field.value == []
    else if field.name == CONTENT_LENGTH then
      var again := Values(earlier, CONTENT_LENGTH) != [];
      || (status == 413 && !again && Oversized(field.value, cfg.maxBodyBytes))
      || (status == 400 && (again || (!Oversized(field.value, cfg.maxBodyBytes) && !Digits(field.value))))
    else status == 417 && field.name == EXPECT
  }

  /** The line at pos, after `earlier` fields, is refused with this status. */
  predicate LineFault(cfg: Config, maxHeaders: nat, head: seq<int>, pos: nat, earlier: seq<Field>, status: int) {
    var finish := FirstBreak(head, pos);
    if finish < 0 || |earlier| == maxHeaders then status == 431
    else if !Lineable(head[pos..finish]) then status == 400
    else FieldFault(cfg, earlier, ParseField(head[pos..finish]).1, status)
  }

  /** The first line, from pos on, that is refused at all is refused with this status. */
  ghost predicate Faulty(cfg: Config, maxHeaders: nat, head: seq<int>, pos: nat, earlier: seq<Field>, status: int)
    decreases |head| - pos
  {
    && pos + 2 < |head|
    && if exists s :: LineFault(cfg, maxHeaders, head, pos, earlier, s) then
         LineFault(cfg, maxHeaders, head, pos, earlier, status)
       else
         var finish := FirstBreak(head, pos);
         finish >= 0
         && Faulty(cfg, maxHeaders, head, finish + 2, earlier + [ParseField(head[pos..finish]).1], status)
  }

  ghost predicate HasFault(cfg: Config, maxHeaders: nat, head: seq<int>, pos: nat) {
    exists status :: Faulty(cfg, maxHeaders, head, pos, [], status)
  }

  lemma NoteFault(cfg: Config, seen: Seen, earlier: seq<Field>, field: Field, status: int)
    requires seen.lengthSeen <==> Values(earlier, CONTENT_LENGTH) != []
    ensures Note(cfg, seen, field) == Step.Stop(status) <==> FieldFault(cfg, earlier, field, status)
  {
    NamesDiffer();
    assert field.value[..0] == [];
    LengthStatus(field.value, 0, 0, cfg.maxBodyBytes);
    if field.value == [] { assert !Oversized([], cfg.maxBodyBytes); }
    hide Length, Number, Oversized, Values;
  }

  lemma NoteSeen(cfg: Config, seen: Seen, earlier: seq<Field>, field: Field)
    requires seen.lengthSeen <==> Values(earlier, CONTENT_LENGTH) != []
    requires seen.count == |earlier| && Note(cfg, seen, field).Go?
    ensures var next := Note(cfg, seen, field).seen;
            next.count == |earlier + [field]|
            && (next.lengthSeen <==> Values(earlier + [field], CONTENT_LENGTH) != [])
  {
    NamesDiffer();
    ValuesLast(earlier, field, CONTENT_LENGTH);
    hide Length, Values;
  }

  lemma {:induction false} ValuesLast(fields: seq<Field>, field: Field, name: seq<int>)
    ensures Values(fields + [field], name) == Values(fields, name) + if field.name == name then [field.value] else []
  {
    if fields == [] {
      assert fields + [field] == [field] && [field][1..] == [];
    } else {
      assert (fields + [field])[1..] == fields[1..] + [field];
      ValuesLast(fields[1..], field, name);
    }
  }

  /** The header loop stops with a status exactly for the fault that calls for it. */
  lemma {:induction false} FieldsStatus(cfg: Config, maxHeaders: nat, head: seq<int>, pos: nat, seen: Seen,
                                        earlier: seq<Field>, status: int)
    requires seen.count == |earlier| && (seen.lengthSeen <==> Values(earlier, CONTENT_LENGTH) != [])
    ensures Fields(cfg, maxHeaders, head, pos, seen) == Step.Stop(status) <==>
              Faulty(cfg, maxHeaders, head, pos, earlier, status)
    decreases |head| - pos
  {
    if pos + 2 < |head| {
      var finish := FirstBreak(head, pos);
      if finish < 0 || |earlier| == maxHeaders {
        assert LineFault(cfg, maxHeaders, head, pos, earlier, 431);
      } else {
        var raw := head[pos..finish];
        FieldRefused(raw);
        if !Lineable(raw) {
          assert LineFault(cfg, maxHeaders, head, pos, earlier, 400);
        } else {
          var field := ParseField(raw).1;
          forall s ensures Note(cfg, seen, field) == Step.Stop(s) <==> FieldFault(cfg, earlier, field, s) {
            NoteFault(cfg, seen, earlier, field, s);
          }
          if Note(cfg, seen, field).Stop? {
            assert LineFault(cfg, maxHeaders, head, pos, earlier, Note(cfg, seen, field).status);
          } else {
            NoteSeen(cfg, seen, earlier, field);
            FieldsStatus(cfg, maxHeaders, head, finish + 2, Note(cfg, seen, field).seen, earlier + [field], status);
          }
        }
      }
      hide Lineable, ParseField, FieldFault, Note, Values;
    }
  }

  /** With which status each header block is refused. */
  lemma FrameStatus(cfg: Config, maxHeaders: nat, line: seq<int> -> Line, head: seq<int>, status: int)
    ensures var lineEnd := FirstBreak(head, 0);
            Frame(cfg, maxHeaders, line, head) == Refused(status) <==>
              if lineEnd < 0 || lineEnd > cfg.maxRequestLine then status == 414
              else if exists i :: 0 <= i < lineEnd && !(32 <= head[i] <= 126) then status == 400
              else
                var request := line(head[..lineEnd]);
                if request.Bad? then status == request.status
                else
                  var fields := AllFields(head, lineEnd + 2);
                  var lengths, codings := Values(fields, CONTENT_LENGTH), Values(fields, TRANSFER_ENCODING);
                  if HasFault(cfg, maxHeaders, head, lineEnd + 2) then
                    Faulty(cfg, maxHeaders, head, lineEnd + 2, [], status)
                  else if codings != [] then status == if lengths != [] then 400 else 501
                  else if request.version11 && |Values(fields, HOST)| != 1 then status == 400
                  else status == 411 && request.post && lengths == []
  {
    var lineEnd := FirstBreak(head, 0);
    if lineEnd >= 0 { FieldsEnd(cfg, maxHeaders, head, lineEnd + 2); }
    hide Fields, Faulty, HasFault, Values, AllFields, FirstBreak;
  }

  /** How the header loop ends. */
  lemma FieldsEnd(cfg: Config, maxHeaders: nat, head: seq<int>, pos: nat)
    ensures var end, fields := Fields(cfg, maxHeaders, head, pos, Seen(0, 0, false, 0, false)), AllFields(head, pos);
            && (forall s :: end == Step.Stop(s) <==> Faulty(cfg, maxHeaders, head, pos, [], s))
            && (end.Stop? <==> HasFault(cfg, maxHeaders, head, pos))
            && (end.Go? ==>
                  && end.seen.hosts == |Values(fields, HOST)|
                  && (end.seen.encoded <==> Values(fields, TRANSFER_ENCODING) != [])
                  && (end.seen.lengthSeen <==> Values(fields, CONTENT_LENGTH) != []))
  {
    var none := Seen(0, 0, false, 0, false);
    var end := Fields(cfg, maxHeaders, head, pos, none);
    forall s ensures end == Step.Stop(s) <==> Faulty(cfg, maxHeaders, head, pos, [], s) {
      FieldsStatus(cfg, maxHeaders, head, pos, none, [], s);
    }
    if end.Go? {
      FieldsTell(cfg, maxHeaders, head, pos, none);
    } else {
      assert Faulty(cfg, maxHeaders, head, pos, [], end.status);
    }
    hide Fields, Faulty, Values, AllFields;
  }
}
