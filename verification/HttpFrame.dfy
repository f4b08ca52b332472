/** The framing part of the request parser: header fields and the length of the body. */
module HttpFrame {
  import opened Http

  /** What the request line gives: an error status, or what framing needs to know of it. */
  datatype Line = Bad(status: int) | Good(post: bool, version11: bool)

  datatype Field = Field(name: seq<int>, value: seq<int>)

  const COLON := 58

  const HOST := [104, 111, 115, 116]
  const CONTENT_LENGTH := [99, 111, 110, 116, 101, 110, 116, 45, 108, 101, 110, 103, 116, 104]
  const TRANSFER_ENCODING := [116, 114, 97, 110, 115, 102, 101, 114, 45, 101, 110, 99, 111, 100, 105, 110, 103]
  const EXPECT := [101, 120, 112, 101, 99, 116]

  /** `_HTTPToken`. */
  predicate Token(s: seq<int>) {
    s != [] && forall i :: 0 <= i < |s| ==> 48 <= s[i] <= 57 || 65 <= s[i] <= 90 || 97 <= s[i] <= 122 || s[i] == 45
  }

  function Lower(s: seq<int>): (r: seq<int>)
    ensures |r| == |s|
  {
    seq(|s|, i requires 0 <= i < |s| => if 65 <= s[i] <= 90 then s[i] + 32 else s[i])
  }

  function TrimLeft(s: seq<int>): seq<int> { if s != [] && s[0] <= 32 then TrimLeft(s[1..]) else s }

  function TrimRight(s: seq<int>): seq<int> { if s != [] && s[|s| - 1] <= 32 then TrimRight(s[..|s| - 1]) else s }

  function Trim(s: seq<int>): seq<int> { TrimRight(TrimLeft(s)) }

  function IndexOf(s: seq<int>, u: int, i: nat): (r: int)
    requires i <= |s|
    ensures r == -1 || (i <= r < |s| && s[r] == u)
    decreases |s| - i
  {
    if i == |s| then -1 else if s[i] == u then i else IndexOf(s, u, i + 1)
  }

  predicate Printable(s: seq<int>) { forall i :: 0 <= i < |s| ==> (32 <= s[i] <= 126) || s[i] == 9 }

  /** One header line as a field, or the status it is refused with. */
  function ParseField(raw: seq<int>): (r: (int, Field))
    ensures r.0 == 0 || r.0 == 400
  {
    var none := Field([], []);
    if !Printable(raw) then (400, none)
    else
      var colon := IndexOf(raw, COLON, 0);
      if colon <= 0 || !Token(raw[..colon]) then (400, none)
      else (0, Field(Lower(raw[..colon]), Trim(raw[colon + 1..])))
  }

  /** A decimal no greater than the limit, or the status it is refused with. */
  function Length(value: seq<int>, i: nat, total: nat, limit: nat): (r: (int, nat))
    requires i <= |value| && total <= limit
    ensures r.0 == 0 || r.0 == 400 || r.0 == 413
    ensures r.1 <= limit
    decreases |value| - i
  {
    if i == |value| then (0, total)
    else if value[i] < 48 || value[i] > 57 then (400, 0)
    else
      var next := total * 10 + value[i] - 48;
      if next > limit then (413, 0) else Length(value, i + 1, next, limit)
  }

  /** What the header loop has seen. */
  datatype Seen = Seen(count: nat, hosts: nat, lengthSeen: bool, expected: nat, encoded: bool)

  datatype Step = Stop(status: int) | Go(seen: Seen)

  /** One field's effect. */
  function Note(cfg: Config, seen: Seen, field: Field): Step {
    var s := seen.(count := seen.count + 1);
    if field.name == HOST then
      if field.value == [] then Stop(400) else Go(s.(hosts := s.hosts + 1))
    else if field.name == CONTENT_LENGTH then
      if seen.lengthSeen || field.value == [] then Stop(400)
      else
        var (status, total) := Length(field.value, 0, 0, cfg.maxBodyBytes);
        if status != 0 then Stop(status) else Go(s.(lengthSeen := true, expected := total))
    else if field.name == TRANSFER_ENCODING then Go(s.(encoded := true))
    else if field.name == EXPECT then Stop(417)
    else Go(s)
  }

  /** The header loop from position pos on. */
  function Fields(cfg: Config, maxHeaders: nat, head: seq<int>, pos: nat, seen: Seen): Step
    decreases |head| - pos
  {
    if pos + 2 >= |head| then Go(seen)
    else
      var finish := FirstBreak(head, pos);
      if finish < 0 || seen.count == maxHeaders then Stop(431)
      else
        var (status, field) := ParseField(head[pos..finish]);
        if status != 0 then Stop(status)
        else
          match Note(cfg, seen, field)
          case Stop(status) => Stop(status)
          case Go(next) => Fields(cfg, maxHeaders, head, finish + 2, next)
  }

  /** `_Parse`, given what the request line says. */
  function Frame(cfg: Config, maxHeaders: nat, line: seq<int> -> Line, head: seq<int>): Parsed {
    var lineEnd := FirstBreak(head, 0);
    if lineEnd < 0 || lineEnd > cfg.maxRequestLine then Refused(414)
    else if exists i :: 0 <= i < lineEnd && !(32 <= head[i] <= 126) then Refused(400)
    else
      match line(head[..lineEnd])
      case Bad(status) => Refused(status)
      case Good(post, version11) =>
        match Fields(cfg, maxHeaders, head, lineEnd + 2, Seen(0, 0, false, 0, false))
        case Stop(status) => Refused(status)
        case Go(seen) =>
          if seen.encoded then Refused(if seen.lengthSeen then 400 else 501)
          else if version11 && seen.hosts != 1 then Refused(400)
          else if post && !seen.lengthSeen then Refused(411)
          else Accepted(seen.expected)
  }

  // ---- Section 6.3 of RFC 9112 --------------------------------------------------------------------

  /** The fields of a header block, one per line. */
  function AllFields(head: seq<int>, pos: nat): seq<Field>
    decreases |head| - pos
  {
    if pos + 2 >= |head| then []
    else
      var finish := FirstBreak(head, pos);
      if finish < 0 then [] else [ParseField(head[pos..finish]).1] + AllFields(head, finish + 2)
  }

  function Values(fields: seq<Field>, name: seq<int>): seq<seq<int>> {
    if fields == [] then [] else (if fields[0].name == name then [fields[0].value] else []) + Values(fields[1..], name)
  }

  function Number(digits: seq<int>): int {
    if digits == [] then 0 else Number(digits[..|digits| - 1]) * 10 + digits[|digits| - 1] - 48
  }

  predicate Digits(s: seq<int>) { s != [] && forall i :: 0 <= i < |s| ==> 48 <= s[i] <= 57 }

  lemma {:induction false} LengthNumber(value: seq<int>, i: nat, total: nat, limit: nat)
    requires i <= |value| && total <= limit && total == Number(value[..i])
    ensures Length(value, i, total, limit).0 == 0 ==>
              Length(value, i, total, limit).1 == Number(value) && forall k :: i <= k < |value| ==> 48 <= value[k] <= 57
    decreases |value| - i
  {
    if i == |value| {
      assert value[..i] == value;
    } else if 48 <= value[i] <= 57 && total * 10 + value[i] - 48 <= limit {
      assert value[..i + 1][..i] == value[..i];
      LengthNumber(value, i + 1, total * 10 + value[i] - 48, limit);
    }
  }

  /** What the loop knows at its end, in terms of the fields. */
  ghost predicate Tells(seen: Seen, after: Seen, fields: seq<Field>) {
    var lengths := Values(fields, CONTENT_LENGTH);
    && after.hosts == seen.hosts + |Values(fields, HOST)|
    && (after.encoded <==> seen.encoded || Values(fields, TRANSFER_ENCODING) != [])
    && Values(fields, EXPECT) == []
    && |lengths| <= (if seen.lengthSeen then 0 else 1)
    && (after.lengthSeen <==> seen.lengthSeen || lengths != [])
    && (lengths == [] ==> after.expected == seen.expected)
    && (lengths != [] ==> Digits(lengths[0]) && after.expected == Number(lengths[0]))
  }

  lemma NoteTells(cfg: Config, seen: Seen, field: Field)
    requires Note(cfg, seen, field).Go?
    ensures Tells(seen, Note(cfg, seen, field).seen, [field])
  {
    assert [field][1..] == [];
    assert HOST != CONTENT_LENGTH && |HOST| != |TRANSFER_ENCODING| && |EXPECT| != |HOST|;
    assert |CONTENT_LENGTH| == 14 && |TRANSFER_ENCODING| == 17 && |EXPECT| == 6 && |HOST| == 4;
    if field.name == CONTENT_LENGTH { LengthNumber(field.value, 0, 0, cfg.maxBodyBytes); }
  }

  lemma ValuesCons(field: Field, fields: seq<Field>, name: seq<int>)
    ensures Values([field] + fields, name) == Values([field], name) + Values(fields, name)
  {
    assert ([field] + fields)[1..] == fields && [field][1..] == [];
  }

  lemma TellsBoth(a: Seen, b: Seen, c: Seen, field: Field, fields: seq<Field>)
    requires Tells(a, b, [field]) && Tells(b, c, fields)
    ensures Tells(a, c, [field] + fields)
  {
    ValuesCons(field, fields, HOST);
    ValuesCons(field, fields, CONTENT_LENGTH);
    ValuesCons(field, fields, TRANSFER_ENCODING);
    ValuesCons(field, fields, EXPECT);
  }

  lemma {:induction false} FieldsTell(cfg: Config, maxHeaders: nat, head: seq<int>, pos: nat, seen: Seen)
    requires Fields(cfg, maxHeaders, head, pos, seen).Go?
    ensures Tells(seen, Fields(cfg, maxHeaders, head, pos, seen).seen, AllFields(head, pos))
    decreases |head| - pos
  {
    if pos + 2 < |head| {
      var finish := FirstBreak(head, pos);
      var (status, field) := ParseField(head[pos..finish]);
      var next := Note(cfg, seen, field).seen;
      NoteTells(cfg, seen, field);
      FieldsTell(cfg, maxHeaders, head, finish + 2, next);
      hide Tells;
      TellsBoth(seen, next, Fields(cfg, maxHeaders, head, pos, seen).seen, field, AllFields(head, finish + 2));
    }
  }

  /** An accepted request has no transfer coding, at most one Content-Length, which is a decimal number,
      and its body is as long as that number says, or empty without one. */
  lemma BodyLength(cfg: Config, maxHeaders: nat, line: seq<int> -> Line, head: seq<int>)
    requires Frame(cfg, maxHeaders, line, head).Accepted?
    ensures var fields := AllFields(head, FirstBreak(head, 0) + 2);
            var lengths := Values(fields, CONTENT_LENGTH);
            && Values(fields, TRANSFER_ENCODING) == [] && Values(fields, EXPECT) == [] && |lengths| <= 1
            && Frame(cfg, maxHeaders, line, head).expected ==
                 (if lengths == [] then 0 else Number(lengths[0])) <= cfg.maxBodyBytes
            && (lengths != [] ==> Digits(lengths[0]))
            && (line(head[..FirstBreak(head, 0)]).post ==> |lengths| == 1)
            && (line(head[..FirstBreak(head, 0)]).version11 ==> |Values(fields, HOST)| == 1)
  {
    FieldsTell(cfg, maxHeaders, head, FirstBreak(head, 0) + 2, Seen(0, 0, false, 0, false));
    FrameBounded(cfg, maxHeaders, line, head);
  }

  lemma {:induction false} FieldsBounded(cfg: Config, maxHeaders: nat, head: seq<int>, pos: nat, seen: Seen)
    requires seen.expected <= cfg.maxBodyBytes && Fields(cfg, maxHeaders, head, pos, seen).Go?
    ensures Fields(cfg, maxHeaders, head, pos, seen).seen.expected <= cfg.maxBodyBytes
    decreases |head| - pos
  {
    if pos + 2 < |head| {
      var finish := FirstBreak(head, pos);
      var next := Note(cfg, seen, ParseField(head[pos..finish]).1).seen;
      FieldsBounded(cfg, maxHeaders, head, finish + 2, next);
    }
  }

  lemma FrameBounded(cfg: Config, maxHeaders: nat, line: seq<int> -> Line, head: seq<int>)
    ensures Frame(cfg, maxHeaders, line, head).Accepted? ==>
              Frame(cfg, maxHeaders, line, head).expected <= cfg.maxBodyBytes
  {
    var seen := Seen(0, 0, false, 0, false);
    var lineEnd := FirstBreak(head, 0);
    if lineEnd >= 0 && Fields(cfg, maxHeaders, head, lineEnd + 2, seen).Go? {
      FieldsBounded(cfg, maxHeaders, head, lineEnd + 2, seen);
    }
  }

  // ---- Which header blocks are accepted -----------------------------------------------------------

  /** Every header line ends, is printable, and has a name before its colon. */
  predicate Readable(head: seq<int>, pos: nat)
    decreases |head| - pos
  {
    pos + 2 >= |head| ||
    var finish := FirstBreak(head, pos);
    finish >= 0 && ParseField(head[pos..finish]).0 == 0 && Readable(head, finish + 2)
  }

  /** A decimal number within the limit. */
  predicate Fitting(value: seq<int>, limit: nat) { Digits(value) && Number(value) <= limit }

  /** The fields the header loop goes through with, after `count` others and perhaps a Content-Length. */
  predicate Passing(cfg: Config, maxHeaders: nat, count: nat, lengthSeen: bool, fields: seq<Field>) {
    var lengths := Values(fields, CONTENT_LENGTH);
    && count + |fields| <= maxHeaders
    && [] !in Values(fields, HOST) && Values(fields, EXPECT) == []
    && |lengths| <= (if lengthSeen then 0 else 1)
    && (lengths != [] ==> Fitting(lengths[0], cfg.maxBodyBytes))
  }

  lemma {:induction false} NumberGrows(value: seq<int>, i: nat)
    requires i <= |value| && forall k :: i <= k < |value| ==> 48 <= value[k] <= 57
    requires Number(value[..i]) >= 0
    ensures Number(value[..i]) <= Number(value)
    decreases |value|
  {
    if i == |value| {
      assert value[..i] == value;
    } else {
      var front := value[..|value| - 1];
      assert front[..i] == value[..i];
      NumberGrows(front, i);
    }
  }

  lemma {:induction false} LengthIff(value: seq<int>, i: nat, total: nat, limit: nat)
    requires i <= |value| && total <= limit && total == Number(value[..i])
    ensures Length(value, i, total, limit).0 == 0 <==>
              (forall k :: i <= k < |value| ==> 48 <= value[k] <= 57) && Number(value) <= limit
    decreases |value| - i
  {
    if i == |value| {
      assert value[..i] == value;
    } else if 48 <= value[i] <= 57 {
      var next := total * 10 + value[i] - 48;
      assert value[..i + 1][..i] == value[..i];
      if next <= limit {
        LengthIff(value, i + 1, next, limit);
      } else if forall k :: i <= k < |value| ==> 48 <= value[k] <= 57 {
        NumberGrows(value, i + 1);
      }
    }
  }

  lemma NamesDiffer()
    ensures HOST != CONTENT_LENGTH && HOST != TRANSFER_ENCODING && HOST != EXPECT
    ensures CONTENT_LENGTH != TRANSFER_ENCODING && CONTENT_LENGTH != EXPECT && TRANSFER_ENCODING != EXPECT
  {
    assert |CONTENT_LENGTH| == 14 && |TRANSFER_ENCODING| == 17 && |EXPECT| == 6 && |HOST| == 4;
  }

  lemma OneValue(field: Field, name: seq<int>)
    ensures Values([field], name) == if field.name == name then [field.value] else []
  {
    assert [field][1..] == [];
  }

  /** What the loop makes of one field, by its name. */
  lemma NoteIff(cfg: Config, maxHeaders: nat, seen: Seen, field: Field)
    requires seen.count < maxHeaders
    ensures Note(cfg, seen, field).Go? <==> Passing(cfg, maxHeaders, seen.count, seen.lengthSeen, [field])
    ensures Note(cfg, seen, field).Go? ==>
              var next := Note(cfg, seen, field).seen;
              next.count == seen.count + 1 && (next.lengthSeen <==> seen.lengthSeen || field.name == CONTENT_LENGTH)
  {
    NamesDiffer();
    OneValue(field, HOST);
    OneValue(field, CONTENT_LENGTH);
    OneValue(field, EXPECT);
    assert field.value[..0] == [];
    LengthIff(field.value, 0, 0, cfg.maxBodyBytes);
    hide Length, Number;
  }

  lemma PassingCons(cfg: Config, maxHeaders: nat, count: nat, lengthSeen: bool, field: Field, fields: seq<Field>)
    ensures Passing(cfg, maxHeaders, count, lengthSeen, [field] + fields) <==>
              && Passing(cfg, maxHeaders, count, lengthSeen, [field])
              && Passing(cfg, maxHeaders, count + 1, lengthSeen || field.name == CONTENT_LENGTH, fields)
  {
    ValuesCons(field, fields, HOST);
    ValuesCons(field, fields, CONTENT_LENGTH);
    ValuesCons(field, fields, EXPECT);
    OneValue(field, HOST);
    OneValue(field, CONTENT_LENGTH);
    OneValue(field, EXPECT);
    hide Values;
  }

  /** One line of the block, to the loop, to its lines and to its fields. */
  lemma LineStep(cfg: Config, maxHeaders: nat, head: seq<int>, pos: nat, seen: Seen, finish: int)
    requires pos + 2 < |head| && finish == FirstBreak(head, pos)
    ensures finish < 0 ==> !Fields(cfg, maxHeaders, head, pos, seen).Go? && !Readable(head, pos)
    ensures finish >= 0 ==>
              var (status, field) := ParseField(head[pos..finish]);
              && pos <= finish < |head| - 1
              && AllFields(head, pos) == [field] + AllFields(head, finish + 2)
              && (Readable(head, pos) <==> status == 0 && Readable(head, finish + 2))
              && (Fields(cfg, maxHeaders, head, pos, seen).Go? <==>
                    && seen.count != maxHeaders && status == 0 && Note(cfg, seen, field).Go?
                    && Fields(cfg, maxHeaders, head, finish + 2, Note(cfg, seen, field).seen).Go?)
  {
    hide Note, ParseField;
  }

  lemma LastLine(cfg: Config, maxHeaders: nat, head: seq<int>, pos: nat, seen: Seen)
    requires pos + 2 >= |head| && seen.count <= maxHeaders
    ensures Fields(cfg, maxHeaders, head, pos, seen).Go? && Readable(head, pos)
    ensures Passing(cfg, maxHeaders, seen.count, seen.lengthSeen, AllFields(head, pos))
  {
  }

  lemma TooManyFields(cfg: Config, maxHeaders: nat, lengthSeen: bool, field: Field)
    ensures !Passing(cfg, maxHeaders, maxHeaders, lengthSeen, [field])
  {
  }

  /** The header loop goes through exactly if all lines are readable and their fields pass. */
  lemma {:induction false} FieldsIff(cfg: Config, maxHeaders: nat, head: seq<int>, pos: nat, seen: Seen)
    requires seen.count <= maxHeaders
    ensures Fields(cfg, maxHeaders, head, pos, seen).Go? <==>
              Readable(head, pos) && Passing(cfg, maxHeaders, seen.count, seen.lengthSeen, AllFields(head, pos))
    decreases |head| - pos
  {
    hide *;
    if pos + 2 >= |head| {
      LastLine(cfg, maxHeaders, head, pos, seen);
    } else {
      var finish := FirstBreak(head, pos);
      LineStep(cfg, maxHeaders, head, pos, seen, finish);
      if finish >= 0 {
        var (status, field) := ParseField(head[pos..finish]);
        PassingCons(cfg, maxHeaders, seen.count, seen.lengthSeen, field, AllFields(head, finish + 2));
        if seen.count == maxHeaders {
          TooManyFields(cfg, maxHeaders, seen.lengthSeen, field);
        } else {
          NoteIff(cfg, maxHeaders, seen, field);
          if Note(cfg, seen, field).Go? { FieldsIff(cfg, maxHeaders, head, finish + 2, Note(cfg, seen, field).seen); }
        }
      }
    }
  }

  /** The request line is short enough, printable, and good. */
  predicate LineAccepted(cfg: Config, line: seq<int> -> Line, head: seq<int>) {
    var lineEnd := FirstBreak(head, 0);
    && 0 <= lineEnd <= cfg.maxRequestLine && (forall i :: 0 <= i < lineEnd ==> 32 <= head[i] <= 126)
    && line(head[..lineEnd]).Good?
  }

  /** A header block is accepted exactly if its request line is, its lines are readable, there are no more
      than maxHeaders, none is Expect or Transfer-Encoding, a Host is never empty and, for HTTP/1.1, there
      is exactly one, and there is at most one Content-Length, a decimal within the limit, and one for a
      POST. */
  lemma FrameIff(cfg: Config, maxHeaders: nat, line: seq<int> -> Line, head: seq<int>)
    ensures Frame(cfg, maxHeaders, line, head).Accepted? <==>
              && LineAccepted(cfg, line, head)
              && var lineEnd := FirstBreak(head, 0);
                 var fields := AllFields(head, lineEnd + 2);
                 var request := line(head[..lineEnd]);
                 && Readable(head, lineEnd + 2) && Passing(cfg, maxHeaders, 0, false, fields)
                 && Values(fields, TRANSFER_ENCODING) == []
                 && (request.version11 ==> |Values(fields, HOST)| == 1)
                 && (request.post ==> |Values(fields, CONTENT_LENGTH)| == 1)
  {
    var lineEnd := FirstBreak(head, 0);
    if LineAccepted(cfg, line, head) {
      var none := Seen(0, 0, false, 0, false);
      FieldsIff(cfg, maxHeaders, head, lineEnd + 2, none);
      if Fields(cfg, maxHeaders, head, lineEnd + 2, none).Go? { FieldsTell(cfg, maxHeaders, head, lineEnd + 2, none); }
    }
    hide Fields, Readable, Values, AllFields;
  }

  /** With the real parser too, fragmentation never matters under consistent limits. */
  lemma RequestsIndependent(cfg: Config, maxHeaders: nat,
                            line: seq<int> -> Line, stream: seq<int>, a: seq<nat>, b: seq<nat>)
    requires cfg.maxHeaderBytes > 0 && Consistent(cfg)
    ensures var parse: Parser := head => Frame(cfg, maxHeaders, line, head);
            !Run(cfg, parse, stream, a).outcome.Pending? && !Run(cfg, parse, stream, b).outcome.Pending? ==>
              Run(cfg, parse, stream, a).outcome == Run(cfg, parse, stream, b).outcome
  {
    var parse: Parser := head => Frame(cfg, maxHeaders, line, head);
    forall head
      ensures parse(head).Accepted? ==> parse(head).expected <= cfg.maxBodyBytes
    {
      FrameBounded(cfg, maxHeaders, line, head);
    }
    if !Run(cfg, parse, stream, a).outcome.Pending? && !Run(cfg, parse, stream, b).outcome.Pending? {
      SameOutcome(cfg, parse, stream, a, b);
    }
  }
}
