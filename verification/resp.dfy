/** Commands in the Redis serialization protocol (RESP2, sections "Arrays" and "Bulk strings"):
    the encoder of the Home client, the writers and the reader of the queue protocol. */
module Resp {
  import opened Sequences
  import opened Wrappers
  import opened Bytes

  type Text = seq<byte>

  const CR: byte := 13
  const LF: byte := 10
  const STAR: byte := 42
  const PLUS: byte := 43
  const MINUS: byte := 45
  const DOLLAR: byte := 36
  const COLON: byte := 58

  const CRLF: Text := [CR, LF]
  const MAX_INT: int := 0x7fff_ffff_ffff_ffff

  // ---------------------------------------------------------------- decimal numbers

  predicate IsDigit(b: byte) {
    48 <= b <= 57
  }

  function Itoa(n: nat): (s: Text)
    ensures s != [] && forall i :: 0 <= i < |s| ==> IsDigit(s[i])
  {
    if n < 10 then [(48 + n) as byte] else Itoa(n / 10) + [(48 + n % 10) as byte]
  }

  function DigitsValue(s: Text): (n: nat)
    requires forall i :: 0 <= i < |s| ==> IsDigit(s[i])
  {
    if s == [] then 0
    else
      assert IsDigit(s[|s| - 1]);
      10 * DigitsValue(s[..|s| - 1]) + (s[|s| - 1] as int - 48)
  }

  /** An optional sign, at least one digit, and a value that fits 64 bits. */
  function Atoi(s: Text): Option<int> {
    if s != [] && s[0] == MINUS then Signed(s[1..], -1)
    else if s != [] && s[0] == PLUS then Signed(s[1..], 1)
    else Signed(s, 1)
  }

  function Signed(digits: Text, sign: int): Option<int> {
    if digits == [] || exists i :: 0 <= i < |digits| && !IsDigit(digits[i]) then None
    else
      var n := sign * DigitsValue(digits);
      if -MAX_INT - 1 <= n <= MAX_INT then Some(n) else None
  }

  lemma {:induction false} DigitsOfItoa(n: nat)
    ensures DigitsValue(Itoa(n)) == n
  {
    if n >= 10 {
      DigitsOfItoa(n / 10);
      assert Itoa(n)[..|Itoa(n)| - 1] == Itoa(n / 10);
    } else {
      assert Itoa(n)[..0] == [];
    }
  }

  lemma AtoiOfItoa(n: nat)
    requires n <= MAX_INT
    ensures Atoi(Itoa(n)) == Some(n)
  {
    DigitsOfItoa(n);
    assert IsDigit(Itoa(n)[0]);
  }

  lemma {:induction false} SignedItoa(n: nat, sign: int)
    requires sign == 1 || sign == -1
    ensures Signed(Itoa(n), sign) ==
      if sign * n <= 9223372036854775807 && sign * n >= -9223372036854775808 then Some(sign * n) else None
  {
    DigitsOfItoa(n);
  }

  /** A sign is optional, and a number that 64 bits cannot hold is refused. */
  lemma {:induction false} SignedAtoi(n: nat)
    ensures Atoi(Itoa(n)) == if n <= 9223372036854775807 then Some(n) else None
    ensures Atoi([43] + Itoa(n)) == if n <= 9223372036854775807 then Some(n) else None
    ensures Atoi([45] + Itoa(n)) == if n <= 9223372036854775808 then Some(-(n as int)) else None
  {
    SignedItoa(n, 1);
    SignedItoa(n, -1);
    var digits := Itoa(n);
    assert IsDigit(digits[0]);
    assert ([43] + digits)[1..] == digits && ([45] + digits)[1..] == digits;
    assert ([43] + digits)[0] == 43 && ([45] + digits)[0] == 45;
  }

  /** So is a text without digits or with another byte than a digit after the sign. */
  lemma NotANumber(s: Text, i: nat)
    requires i < |s| && (s[i] < 48 || s[i] > 57)
    requires i == 0 && (s[0] == 43 || s[0] == 45) ==> |s| == 1
    ensures Atoi(s) == None && Atoi([]) == None
  {
    var digits := if s[0] == 43 || s[0] == 45 then s[1..] else s;
    assert digits == [] || !IsDigit(digits[if digits == s then i else i - 1]);
  }

  // ---------------------------------------------------------------- what is written

  function Header(prefix: byte, n: nat): Text {
    [prefix] + Itoa(n) + CRLF
  }

  function Bulk(payload: Text): Text {
    Header(DOLLAR, |payload|) + payload + CRLF
  }

  function Bulks(args: seq<Text>): Text {
    if args == [] then [] else Bulk(args[0]) + Bulks(args[1..])
  }

  function Command(args: seq<Text>): Text {
    Header(STAR, |args|) + Bulks(args)
  }

  function Commands(cmds: seq<seq<Text>>): Text {
    if cmds == [] then [] else Command(cmds[0]) + Commands(cmds[1..])
  }

  /** A nil payload has its own form. */
  function NilableBulk(item: Option<Text>): Text {
    match item
    case None => [DOLLAR, MINUS, 49] + CRLF
    case Some(payload) => Bulk(payload)
  }

  function NilableBulks(items: seq<Option<Text>>): Text {
    if items == [] then [] else NilableBulk(items[0]) + NilableBulks(items[1..])
  }

  lemma {:induction false} BulksAppend(args: seq<Text>, last: Text)
    ensures Bulks(args + [last]) == Bulks(args) + Bulk(last)
  {
    if args == [] {
      assert [last][1..] == [] && [] + [last] == [last];
    } else {
      assert (args + [last])[1..] == args[1..] + [last];
      BulksAppend(args[1..], last);
    }
  }

  lemma {:induction false} NilableBulksAppend(items: seq<Option<Text>>, last: Option<Text>)
    ensures NilableBulks(items + [last]) == NilableBulks(items) + NilableBulk(last)
  {
    if items == [] {
      assert [last][1..] == [] && [] + [last] == [last];
    } else {
      assert (items + [last])[1..] == items[1..] + [last];
      NilableBulksAppend(items[1..], last);
    }
  }

  class Buffer {
    var bytes: Text

    constructor ()
      ensures bytes == []
    {
      bytes := [];
    }

    method Write(text: Text)
      modifies this
      ensures bytes == old(bytes) + text
    {
      bytes := bytes + text;
    }

    method WriteArgument(arg: Text)
      modifies this
      ensures bytes == old(bytes) + Bulk(arg)
    {
      Write([DOLLAR]);
      Write(Itoa(|arg|));
      Write(CRLF);
      assert bytes == old(bytes) + Header(DOLLAR, |arg|);
      Write(arg);
      Write(CRLF);
      Associative(old(bytes), Header(DOLLAR, |arg|) + arg, CRLF);
      Associative(old(bytes), Header(DOLLAR, |arg|), arg);
    }

    method WriteBulkString(payload: Option<Text>)
      modifies this
      ensures bytes == old(bytes) + NilableBulk(payload)
    {
      if payload.None? {
        Write([DOLLAR, MINUS, 49] + CRLF);
        return;
      }
      Write([DOLLAR] + Itoa(|payload.value|) + CRLF);
      Write(payload.value);
      Write(CRLF);
    }

    method WriteArrayOfBulkStrings(items: seq<Option<Text>>)
      modifies this
      ensures bytes == old(bytes) + Header(STAR, |items|) + NilableBulks(items)
    {
      Write([STAR] + Itoa(|items|) + CRLF);
      ghost var start := bytes;
      for i := 0 to |items|
        invariant bytes == start + NilableBulks(items[..i])
      {
        WriteBulkString(items[i]);
        assert items[..i + 1] == items[..i] + [items[i]];
        NilableBulksAppend(items[..i], items[i]);
        Associative(start, NilableBulks(items[..i]), NilableBulk(items[i]));
      }
      assert items[..|items|] == items;
    }
  }

  lemma {:induction false} NextArgument(start: Text, args: seq<Text>, i: nat)
    requires i < |args|
    ensures start + Bulks(args[..i]) + Bulk(args[i]) == start + Bulks(args[..i + 1])
  {
    assert args[..i + 1] == args[..i] + [args[i]];
    BulksAppend(args[..i], args[i]);
    Associative(start, Bulks(args[..i]), Bulk(args[i]));
  }

  method EncodeArray(args: seq<Text>) returns (encoded: Text)
    ensures encoded == Command(args)
  {
    var buf := new Buffer();
    buf.Write([STAR]);
    buf.Write(Itoa(|args|));
    buf.Write(CRLF);
    ghost var start := buf.bytes;
    for i := 0 to |args|
      invariant buf.bytes == start + Bulks(args[..i])
    {
      buf.WriteArgument(args[i]);
      NextArgument(start, args, i);
    }
    assert args[..|args|] == args;
    encoded := buf.bytes;
  }

  // ---------------------------------------------------------------- what is read

  datatype Error = Eof | Protocol | Number | Nil | Allocation | Refused(message: Text)

  datatype Read<T> = Got(value: T, rest: Text) | Failed(error: Error)

  /** Position of the first line feed, or the length. */
  function LineEnd(s: Text): (n: nat)
    ensures n <= |s|
    ensures n < |s| ==> s[n] == LF
    ensures forall i :: 0 <= i < n ==> s[i] != LF
  {
    if s == [] || s[0] == LF then 0 else 1 + LineEnd(s[1..])
  }

  function WithoutCR(line: Text): Text {
    if line != [] && line[|line| - 1] == CR then line[..|line| - 1] else line
  }

  function Line(s: Text): Read<Text> {
    var n := LineEnd(s);
    if n == |s| then Failed(Eof) else Got(WithoutCR(s[..n]), s[n + 1..])
  }

  function BulkString(s: Text): Read<Text> {
    match Line(s)
    case Failed(e) => Failed(e)
    case Got(line, rest) =>
      match Atoi(line)
      case None => Failed(Protocol)
      case Some(length) =>
        if length < 0 then Got([], rest)
        else if length + 2 > MAX_INT then Failed(Allocation)
        else if length + 2 > |rest| then Failed(Eof)
        else if rest[length..length + 2] != CRLF then Failed(Protocol)
        else Got(rest[..length], rest[length + 2..])
  }

  function String(s: Text): Read<Text> {
    if s == [] then Failed(Eof)
    else if s[0] == DOLLAR then BulkString(s[1..])
    else if s[0] == PLUS || s[0] == COLON then Line(s[1..])
    else Failed(Protocol)
  }

  function Prepend<T>(front: seq<T>, r: Read<seq<T>>): Read<seq<T>> {
    if r.Failed? then r else Got(front + r.value, r.rest)
  }

  function Strings(s: Text, count: nat): Read<seq<Text>>
    decreases count
  {
    if count == 0 then Got([], s)
    else
      match String(s)
      case Failed(e) => Failed(e)
      case Got(arg, rest) => Prepend([arg], Strings(rest, count - 1))
  }

  function Array(s: Text): Read<seq<Text>> {
    if s == [] then Failed(Eof)
    else if s[0] != STAR then Failed(Protocol)
    else
      match Line(s[1..])
      case Failed(e) => Failed(e)
      case Got(line, rest) =>
        match Atoi(line)
        case None => Failed(Protocol)
        case Some(count) => if count < 0 then Failed(Protocol) else Strings(rest, count)
  }

  /** The reply reader of the certificate request. */
  function Reply(s: Text): Read<Text> {
    if s == [] then Failed(Eof)
    else if s[0] == DOLLAR then Sized(s[1..])
    else if s[0] == MINUS then
      match Line(s[1..])
      case Failed(e) => Failed(e)
      case Got(line, rest) => Failed(Refused(Trimmed(line)))
    else Failed(Protocol)
  }

  function Sized(s: Text): Read<Text> {
    match Line(s)
    case Failed(e) => Failed(e)
    case Got(line, rest) =>
      match Atoi(Trimmed(line))
      case None => Failed(Number)
      case Some(size) =>
        if size < 0 then Failed(Nil)
        else if size + 2 > MAX_INT then Failed(Allocation)
        else if size + 2 > |rest| then Failed(Eof)
        else Got(rest[..size], rest[size + 2..])
  }

  predicate IsSpace(b: byte) {
    b == 32 || 9 <= b <= 13
  }

  function Trimmed(s: Text): Text {
    if s != [] && IsSpace(s[0]) then Trimmed(s[1..])
    else if s != [] && IsSpace(s[|s| - 1]) then Trimmed(s[..|s| - 1])
    else s
  }

  class Reader {
    const input: Text
    var pos: nat

    ghost predicate Valid()
      reads this
    {
      pos <= |input|
    }

    function Rest(): Text
      requires Valid()
      reads this
    {
      input[pos..]
    }

    constructor (input: Text)
      ensures Valid() && Rest() == input
    {
      this.input := input;
      pos := 0;
    }

    /** How a result and the reader's new position follow from a reading of the old rest. */
    ghost predicate Did<T>(expected: Read<T>, r: Read<T>)
      requires Valid()
      reads this
    {
      r == expected && (r.Got? ==> r.rest == Rest())
    }

    method ReadByte() returns (b: Option<byte>)
      requires Valid()
      modifies this
      ensures Valid()
      ensures b.None? <==> old(Rest()) == []
      ensures b.Some? ==> b.value == old(Rest())[0] && Rest() == old(Rest())[1..]
    {
      if pos == |input| {
        return None;
      }
      b := Some(input[pos]);
      pos := pos + 1;
    }

    method ReadLine() returns (r: Read<Text>)
      requires Valid()
      modifies this
      ensures Valid() && Did(Line(old(Rest())), r)
    {
      var start := pos;
      ghost var s := Rest();
      while pos < |input| && input[pos] != LF
        invariant start <= pos <= |input|
        invariant LineEnd(s) == pos - start + LineEnd(input[pos..])
      {
        assert input[pos..][1..] == input[pos + 1..];
        pos := pos + 1;
      }
      if pos == |input| {
        return Failed(Eof);
      }
      var line := input[start..pos];
      assert s[..pos - start] == line;
      pos := pos + 1;
      assert s[pos - start..] == input[pos..];
      r := Got(WithoutCR(line), input[pos..]);
    }

    method ReadBulkString() returns (r: Read<Text>)
      requires Valid()
      modifies this
      ensures Valid() && Did(BulkString(old(Rest())), r)
    {
      var line := ReadLine();
      if line.Failed? {
        return Failed(line.error);
      }
      var length := Atoi(line.value);
      if length.None? {
        return Failed(Protocol);
      }
      if length.value < 0 {
        return Got([], Rest());
      }
      if length.value + 2 > MAX_INT {
        return Failed(Allocation);
      }
      ghost var rest := Rest();
      if length.value + 2 > |input| - pos {
        pos := |input|;
        return Failed(Eof);
      }
      var buf := input[pos..pos + length.value + 2];
      pos := pos + length.value + 2;
      assert buf == rest[..length.value + 2];
      assert rest[length.value..length.value + 2] == [buf[length.value], buf[length.value + 1]];
      if buf[length.value] != CR || buf[length.value + 1] != LF {
        return Failed(Protocol);
      }
      assert rest[..length.value] == buf[..length.value];
      r := Got(buf[..length.value], Rest());
    }

    method ReadString() returns (r: Read<Text>)
      requires Valid()
      modifies this
      ensures Valid() && Did(String(old(Rest())), r)
    {
      var prefix := ReadByte();
      if prefix.None? {
        return Failed(Eof);
      }
      if prefix.value == DOLLAR {
        r := ReadBulkString();
      } else if prefix.value == PLUS || prefix.value == COLON {
        r := ReadLine();
      } else {
        r := Failed(Protocol);
      }
    }

    method ReadArray() returns (r: Read<seq<Text>>)
      requires Valid()
      modifies this
      ensures Valid() && Did(Array(old(Rest())), r)
    {
      var prefix := ReadByte();
      if prefix.None? {
        return Failed(Eof);
      }
      if prefix.value != STAR {
        return Failed(Protocol);
      }
      var line := ReadLine();
      if line.Failed? {
        return Failed(line.error);
      }
      var count := Atoi(line.value);
      if count.None? || count.value < 0 {
        return Failed(Protocol);
      }
      r := ReadStrings(count.value);
    }

    method ReadStrings(count: nat) returns (r: Read<seq<Text>>)
      requires Valid()
      modifies this
      ensures Valid() && Did(Strings(old(Rest()), count), r)
    {
      ghost var whole := Strings(Rest(), count);
      var args: seq<Text> := [];
      NothingPrepended(whole);
      for i := 0 to count
        invariant Valid() && Continues(whole, args, Rest(), count - i)
      {
        ghost var before := Rest();
        var value := ReadString();
        NextString(whole, args, before, count - i, value);
        if value.Failed? {
          return Failed(value.error);
        }
        args := args + [value.value];
      }
      AllStringsRead(whole, args, Rest());
      r := Got(args, Rest());
    }

    /** The payload of a reply; what follows it is skipped without being looked at. */
    method ReadReply() returns (r: Read<Text>)
      requires Valid()
      modifies this
      ensures Valid() && Did(Reply(old(Rest())), r)
    {
      var prefix := ReadByte();
      if prefix.None? {
        return Failed(Eof);
      }
      if prefix.value == DOLLAR {
        r := ReadSized();
        return;
      }
      if prefix.value == MINUS {
        var line := ReadLine();
        if line.Failed? {
          return Failed(line.error);
        }
        return Failed(Refused(Trimmed(line.value)));
      }
      r := Failed(Protocol);
    }

    method ReadSized() returns (r: Read<Text>)
      requires Valid()
      modifies this
      ensures Valid() && Did(Sized(old(Rest())), r)
    {
      var line := ReadLine();
      if line.Failed? {
        return Failed(line.error);
      }
      var size := Atoi(Trimmed(line.value));
      if size.None? {
        return Failed(Number);
      }
      if size.value < 0 {
        return Failed(Nil);
      }
      if size.value + 2 > MAX_INT {
        return Failed(Allocation);
      }
      ghost var rest := Rest();
      if size.value + 2 > |input| - pos {
        pos := |input|;
        return Failed(Eof);
      }
      var payload := input[pos..pos + size.value + 2];
      pos := pos + size.value + 2;
      assert payload == rest[..size.value + 2];
      assert rest[..size.value] == payload[..size.value];
      r := Got(payload[..size.value], Rest());
    }
  }

  /** With `args` read and `left` more strings to read from `s`, the whole reading is this one. */
  ghost predicate Continues(whole: Read<seq<Text>>, args: seq<Text>, s: Text, left: nat) {
    whole == Prepend(args, Strings(s, left))
  }

  lemma NextString(whole: Read<seq<Text>>, args: seq<Text>, s: Text, left: nat, value: Read<Text>)
    requires left > 0 && Continues(whole, args, s, left) && value == String(s)
    ensures value.Failed? ==> whole == Failed(value.error)
    ensures value.Got? ==> Continues(whole, args + [value.value], value.rest, left - 1)
  {
    if value.Got? {
      PrependTwice(args, value.value, Strings(value.rest, left - 1));
    }
  }

  lemma NothingPrepended<T>(r: Read<seq<T>>)
    ensures Prepend([], r) == r
  {
    if r.Got? {
      assert [] + r.value == r.value;
    }
  }

  lemma AllStringsRead(whole: Read<seq<Text>>, args: seq<Text>, s: Text)
    requires Continues(whole, args, s, 0)
    ensures whole == Got(args, s)
  {
    assert args + [] == args;
  }

  lemma PrependTwice<T>(front: seq<T>, x: T, r: Read<seq<T>>)
    ensures Prepend(front, Prepend([x], r)) == Prepend(front + [x], r)
  {
    if r.Got? {
      assert front + ([x] + r.value) == front + [x] + r.value;
    }
  }

  // ---------------------------------------------------------------- reading what was written

  /** A text the writer's int lengths can describe. */
  predicate Fits(arg: Text) {
    |arg| + 2 <= MAX_INT
  }

  predicate CommandFits(args: seq<Text>) {
    |args| <= MAX_INT && forall i :: 0 <= i < |args| ==> Fits(args[i])
  }

  predicate ItemsFit(items: seq<Option<Text>>) {
    |items| <= MAX_INT && forall i :: 0 <= i < |items| ==> ItemFits(items[i])
  }

  predicate ItemFits(item: Option<Text>) {
    item.Some? ==> Fits(item.value)
  }

  lemma {:induction false} LineEndAt(a: Text, b: Text)
    requires forall i :: 0 <= i < |a| ==> a[i] != LF
    ensures LineEnd(a + [LF] + b) == |a|
  {
    if a != [] {
      assert (a + [LF] + b)[1..] == a[1..] + [LF] + b;
      LineEndAt(a[1..], b);
    }
  }

  lemma {:induction false} LineReads(text: Text, rest: Text)
    requires forall i :: 0 <= i < |text| ==> text[i] != LF
    ensures Line(text + CRLF + rest) == Got(text, rest)
  {
    var line := text + [CR];
    assert text + CRLF + rest == line + [LF] + rest;
    LineEndAt(line, rest);
    var s := line + [LF] + rest;
    assert s[..|line|] == line && s[|line| + 1..] == rest;
    assert line[..|line| - 1] == text;
  }

  lemma HeaderReads(n: nat, rest: Text)
    requires n <= MAX_INT
    ensures Line(Itoa(n) + CRLF + rest) == Got(Itoa(n), rest)
    ensures Atoi(Itoa(n)) == Some(n)
  {
    LineReads(Itoa(n), rest);
    AtoiOfItoa(n);
  }

  lemma BulkReads(payload: Text, rest: Text)
    requires Fits(payload)
    ensures String(Bulk(payload) + rest) == Got(payload, rest)
    ensures Reply(Bulk(payload) + rest) == Got(payload, rest)
  {
    var tail := payload + CRLF + rest;
    assert (Bulk(payload) + rest)[1..] == Itoa(|payload|) + CRLF + tail;
    HeaderReads(|payload|, tail);
    DigitsAreTrimmed(Itoa(|payload|));
    assert tail[..|payload|] == payload;
    assert tail[|payload|..|payload| + 2] == CRLF;
    assert tail[|payload| + 2..] == rest;
  }

  lemma DigitsAreTrimmed(s: Text)
    requires s != [] && forall i :: 0 <= i < |s| ==> IsDigit(s[i])
    ensures Trimmed(s) == s
  {
  }

  lemma {:induction false} BulksRead(args: seq<Text>, rest: Text)
    requires forall i :: 0 <= i < |args| ==> Fits(args[i])
    ensures Strings(Bulks(args) + rest, |args|) == Got(args, rest)
  {
    if args == [] {
      assert Bulks(args) + rest == rest;
    } else {
      var arg, more := args[0], args[1..];
      assert args == [arg] + more;
      BulksRead(more, rest);
      AnotherBulk(arg, more, rest);
    }
  }

  lemma {:induction false} BulksUnfold(arg: Text, more: seq<Text>)
    ensures Bulks([arg] + more) == Bulk(arg) + Bulks(more)
  {
    assert ([arg] + more)[1..] == more;
  }

  lemma {:induction false} AnotherBulk(arg: Text, more: seq<Text>, rest: Text)
    requires Fits(arg) && Strings(Bulks(more) + rest, |more|) == Got(more, rest)
    ensures Strings(Bulks([arg] + more) + rest, |more| + 1) == Got([arg] + more, rest)
  {
    BulksUnfold(arg, more);
    BulkReads(arg, Bulks(more) + rest);
    StringThenMore(Bulk(arg), arg, Bulks(more), rest, |more|, more);
  }

  lemma ArrayStarts(n: nat, tail: Text)
    requires n <= MAX_INT
    ensures Array(Header(STAR, n) + tail) == Strings(tail, n)
  {
    assert (Header(STAR, n) + tail)[1..] == Itoa(n) + CRLF + tail;
    HeaderReads(n, tail);
  }

  /** Reading an encoded command, whatever bytes the arguments hold and whatever follows, gives
      back the arguments and leaves exactly what follows. */
  lemma CommandReads(args: seq<Text>, rest: Text)
    requires CommandFits(args)
    ensures Array(Command(args) + rest) == Got(args, rest)
  {
    Associative(Header(STAR, |args|), Bulks(args), rest);
    ArrayStarts(|args|, Bulks(args) + rest);
    BulksRead(args, rest);
  }

  /** Reading `n` commands in a row. */
  function Pipeline(s: Text, n: nat): Read<seq<seq<Text>>>
    decreases n
  {
    if n == 0 then Got([], s)
    else
      match Array(s)
      case Failed(e) => Failed(e)
      case Got(cmd, rest) =>
        match Pipeline(rest, n - 1)
        case Failed(e) => Failed(e)
        case Got(cmds, after) => Got([cmd] + cmds, after)
  }

  lemma {:induction false} PipelineStep(cmd: seq<Text>, more: seq<seq<Text>>, rest: Text)
    requires CommandFits(cmd) && Pipeline(Commands(more) + rest, |more|) == Got(more, rest)
    ensures Pipeline(Command(cmd) + Commands(more) + rest, |more| + 1) == Got([cmd] + more, rest)
  {
    Associative(Command(cmd), Commands(more), rest);
    CommandReads(cmd, Commands(more) + rest);
  }

  /** Commands written one after the other are read as exactly those commands. */
  lemma {:induction false} PipelineReads(cmds: seq<seq<Text>>, rest: Text)
    requires forall i :: 0 <= i < |cmds| ==> CommandFits(cmds[i])
    ensures Pipeline(Commands(cmds) + rest, |cmds|) == Got(cmds, rest)
  {
    if cmds == [] {
      assert Commands(cmds) + rest == rest;
    } else {
      PipelineReads(cmds[1..], rest);
      PipelineStep(cmds[0], cmds[1..], rest);
      assert [cmds[0]] + cmds[1..] == cmds;
    }
  }

  /** No encoded command is a prefix of another one's encoding. */
  lemma CommandsDoNotClash(a: seq<Text>, x: Text, b: seq<Text>, y: Text)
    requires CommandFits(a) && CommandFits(b)
    requires Command(a) + x == Command(b) + y
    ensures a == b && x == y
  {
    CommandReads(a, x);
    CommandReads(b, y);
  }

  function OrEmpty(item: Option<Text>): Text {
    if item.Some? then item.value else []
  }

  function AllOrEmpty(items: seq<Option<Text>>): seq<Text> {
    if items == [] then [] else [OrEmpty(items[0])] + AllOrEmpty(items[1..])
  }

  lemma NilableReads(item: Option<Text>, rest: Text)
    requires ItemFits(item)
    ensures String(NilableBulk(item) + rest) == Got(OrEmpty(item), rest)
  {
    if item.Some? {
      BulkReads(item.value, rest);
    } else {
      NilReads(rest);
    }
  }

  lemma {:induction false} NilableBulksRead(items: seq<Option<Text>>, rest: Text)
    requires forall i :: 0 <= i < |items| ==> ItemFits(items[i])
    ensures Strings(NilableBulks(items) + rest, |items|) == Got(AllOrEmpty(items), rest)
  {
    if items == [] {
      assert NilableBulks(items) + rest == rest;
    } else {
      NilableBulksRead(items[1..], rest);
      AnotherNilable(items[0], items[1..], rest);
      assert [items[0]] + items[1..] == items;
    }
  }

  lemma {:induction false} NilableUnfolds(item: Option<Text>, more: seq<Option<Text>>)
    ensures NilableBulks([item] + more) == NilableBulk(item) + NilableBulks(more)
    ensures AllOrEmpty([item] + more) == [OrEmpty(item)] + AllOrEmpty(more)
  {
    assert ([item] + more)[1..] == more;
  }

  lemma {:induction false} StringThenMore(head: Text, arg: Text, more: Text, rest: Text, n: nat, args: seq<Text>)
    requires String(head + (more + rest)) == Got(arg, more + rest)
    requires Strings(more + rest, n) == Got(args, rest)
    ensures Strings(head + more + rest, n + 1) == Got([arg] + args, rest)
  {
    Associative(head, more, rest);
  }

  lemma {:induction false} AnotherNilable(item: Option<Text>, more: seq<Option<Text>>, rest: Text)
    requires ItemFits(item) && Strings(NilableBulks(more) + rest, |more|) == Got(AllOrEmpty(more), rest)
    ensures Strings(NilableBulks([item] + more) + rest, |more| + 1) == Got(AllOrEmpty([item] + more), rest)
  {
    NilableUnfolds(item, more);
    var tail := NilableBulks(more);
    NilableReads(item, tail + rest);
    StringThenMore(NilableBulk(item), OrEmpty(item), tail, rest, |more|, AllOrEmpty(more));
  }

  lemma NilReads(rest: Text)
    ensures String(NilableBulk(None) + rest) == Got([], rest)
    ensures Reply(NilableBulk(None) + rest) == Failed(Nil)
  {
    var line := [MINUS, 49, CR];
    var s := (NilableBulk(None) + rest)[1..];
    assert s == line + [LF] + rest;
    LineEndAt(line, rest);
    assert s[..3] == line && s[4..] == rest;
    assert line[..2] == [MINUS, 49];
    assert [MINUS, 49][1..] == [49 as byte];
    assert DigitsValue([49]) == 1;
    assert Trimmed([MINUS, 49]) == [MINUS, 49];
  }

  /** The queue writer is inverted in the same way, except that a nil item comes back as the
      empty string. */
  lemma {:induction false} ArrayOfBulksReads(items: seq<Option<Text>>, rest: Text)
    requires ItemsFit(items)
    ensures Array(Header(STAR, |items|) + NilableBulks(items) + rest) == Got(AllOrEmpty(items), rest)
  {
    Associative(Header(STAR, |items|), NilableBulks(items), rest);
    ArrayStarts(|items|, NilableBulks(items) + rest);
    NilableBulksRead(items, rest);
  }

  // ---------------------------------------------------------------- the bytes themselves

  /** Three forms as they stand on the wire: *1 $12 with a payload of twelve bytes, *0, and the nil $-1. */
  lemma {:induction false} WireBytes(payload: Text)
    requires |payload| == 12
    ensures Command([payload]) == [42, 49, 13, 10, 36, 49, 50, 13, 10] + payload + [13, 10]
    ensures Command([]) == [42, 48, 13, 10]
    ensures NilableBulk(None) == [36, 45, 49, 13, 10]
  {
    assert Itoa(0) == [48] && Itoa(1) == [49];
    assert Itoa(12) == [49, 50];
    OneBulk(payload);
  }

  lemma {:induction false} OneBulk(arg: Text)
    ensures Bulks([arg]) == Bulk(arg)
  {
    BulksUnfold(arg, []);
    assert [arg] + [] == [arg];
  }

  /** Trimming takes white space from both ends and nothing else. */
  lemma {:induction false} TrimmedIsMiddle(s: Text) returns (before: Text, after: Text)
    ensures s == before + Trimmed(s) + after
    ensures forall b :: b in before || b in after ==> b in [9, 10, 11, 12, 13, 32]
    ensures Trimmed(s) != [] ==>
      Trimmed(s)[0] !in [9, 10, 11, 12, 13, 32] && Trimmed(s)[|Trimmed(s)| - 1] !in [9, 10, 11, 12, 13, 32]
    decreases |s|
  {
    before, after := [], [];
    if s != [] && IsSpace(s[0]) {
      before, after := TrimmedIsMiddle(s[1..]);
      Associative([s[0]], before, Trimmed(s));
      Associative([s[0]], before + Trimmed(s), after);
      assert s == [s[0]] + s[1..];
      before := [s[0]] + before;
    } else if s != [] && IsSpace(s[|s| - 1]) {
      before, after := TrimmedIsMiddle(s[..|s| - 1]);
      Associative(before + Trimmed(s), after, [s[|s| - 1]]);
      assert s == s[..|s| - 1] + [s[|s| - 1]];
      after := after + [s[|s| - 1]];
    }
  }

  /** An error reply is reported as an error with its text, trimmed; only a reply that announces a length
      has a payload, which is that many bytes after the line. */
  lemma {:induction false} ErrorReplies(text: Text, rest: Text)
    requires forall i :: 0 <= i < |text| ==> text[i] != 10
    ensures Reply([45] + text + [13, 10] + rest) == Failed(Refused(Trimmed(text)))
  {
    LineReads(text, rest);
    assert ([45] + text + [13, 10] + rest)[1..] == text + CRLF + rest;
  }

  lemma {:induction false} PayloadsAreAnnounced(s: Text) returns (n: nat)
    requires Reply(s).Got?
    ensures 1 <= n < |s| && s[0] == 36 && s[n] == 10 && forall i :: 1 <= i < n ==> s[i] != 10
    ensures var size := |Reply(s).value|;
      && Atoi(Trimmed(WithoutCR(s[1..n]))) == Some(size) && n + 3 + size <= |s|
      && Reply(s).value == s[n + 1..n + 1 + size] && Reply(s).rest == s[n + 3 + size..]
  {
    var tail := s[1..];
    n := 1 + LineEnd(tail);
    assert tail[..n - 1] == s[1..n] && tail[n..] == s[n + 1..];
    assert forall i :: 1 <= i < n ==> s[i] == tail[i - 1];
  }

  /** The queue reader accepts a bulk string only with its two closing bytes. */
  lemma {:induction false} BulksAreClosed(s: Text) returns (n: nat)
    requires BulkString(s).Got?
    ensures n < |s| && s[n] == 10 && forall i :: 0 <= i < n ==> s[i] != 10
    ensures Atoi(WithoutCR(s[..n])).Some?
    ensures var length, r := Atoi(WithoutCR(s[..n])).value, BulkString(s);
      if length < 0 then r == Got([], s[n + 1..])
      else
        && n + 3 + length <= |s| && r == Got(s[n + 1..n + 1 + length], s[n + 3 + length..])
        && s[n + 1 + length] == 13 && s[n + 2 + length] == 10
  {
    n := LineEnd(s);
    var after, length := s[n + 1..], Atoi(WithoutCR(s[..n])).value;
    if length >= 0 {
      assert after[..length] == s[n + 1..n + 1 + length] && after[length + 2..] == s[n + 3 + length..];
      assert after[length..length + 2][0] == s[n + 1 + length] && after[length..length + 2][1] == s[n + 2 + length];
    }
  }

  /** A line ends at its line feed; a carriage return before it does not belong to it, any other does. */
  lemma {:induction false} LinesEnd(text: Text, rest: Text)
    requires forall i :: 0 <= i < |text| ==> text[i] != 10
    ensures Line(text + [13, 10] + rest) == Got(text, rest)
    ensures text == [] || text[|text| - 1] != 13 ==> Line(text + [10] + rest) == Got(text, rest)
    ensures Line(text) == Failed(Eof)
  {
    LineReads(text, rest);
    LineEndAt(text, rest);
    var s := text + [LF] + rest;
    assert s[..|text|] == text && s[|text| + 1..] == rest;
    assert LineEnd(text) == |text|;
  }

  /** What a certificate reply with a length line comes to. */
  lemma {:induction false} SizedReplies(text: Text, rest: Text)
    requires forall i :: 0 <= i < |text| ==> text[i] != 10
    ensures Reply([36] + text + [13, 10] + rest) ==
      var size := Atoi(Trimmed(text));
      if size.None? then Failed(Number)
      else if size.value < 0 then Failed(Nil)
      else if size.value > 9223372036854775805 then Failed(Allocation)
      else if size.value + 2 > |rest| then Failed(Eof)
      else Got(rest[..size.value], rest[size.value + 2..])
  {
    LineReads(text, rest);
    assert ([36] + text + [13, 10] + rest)[1..] == text + CRLF + rest;
  }

  /** What the queue reader makes of a string with this line. */
  lemma {:induction false} StringReplies(prefix: byte, text: Text, rest: Text)
    requires forall i :: 0 <= i < |text| ==> text[i] != 10
    ensures String([prefix] + text + [13, 10] + rest) ==
      if prefix == 43 || prefix == 58 then Got(text, rest)
      else if prefix != 36 then Failed(Protocol)
      else
        var length := Atoi(text);
        if length.None? then Failed(Protocol)
        else if length.value < 0 then Got([], rest)
        else if length.value > 9223372036854775805 then Failed(Allocation)
        else if length.value + 2 > |rest| then Failed(Eof)
        else if rest[length.value] != 13 || rest[length.value + 1] != 10 then Failed(Protocol)
        else Got(rest[..length.value], rest[length.value + 2..])
  {
    LineReads(text, rest);
    assert ([prefix] + text + [13, 10] + rest)[1..] == text + CRLF + rest;
    if Atoi(text).Some? && 0 <= Atoi(text).value <= |rest| - 2 {
      var n := Atoi(text).value;
      assert rest[n..n + 2] == [rest[n], rest[n + 1]];
    }
  }

  /** An array is read only after a star and the number of its strings. */
  lemma {:induction false} ArraysAreAnnounced(prefix: byte, text: Text, rest: Text)
    requires forall i :: 0 <= i < |text| ==> text[i] != 10
    ensures var count := Atoi(text);
      var r := Array([prefix] + text + [13, 10] + rest);
      if prefix != 42 || count.None? || count.value < 0 then r == Failed(Protocol)
      else r == Strings(rest, count.value) && (r.Got? ==> |r.value| == count.value)
  {
    LineReads(text, rest);
    assert ([prefix] + text + [13, 10] + rest)[1..] == text + CRLF + rest;
    if Atoi(text).Some? && Atoi(text).value >= 0 {
      var whole := Strings(rest, Atoi(text).value);
      NothingPrepended(whole);
      StringsCount(whole, [], rest, Atoi(text).value);
    }
  }

  lemma {:induction false} StringsCount(whole: Read<seq<Text>>, args: seq<Text>, s: Text, left: nat)
    requires Continues(whole, args, s, left)
    ensures whole.Got? ==> |whole.value| == |args| + left
    decreases left
  {
    if left == 0 {
      AllStringsRead(whole, args, s);
    } else {
      var value := String(s);
      NextString(whole, args, s, left, value);
      if value.Got? {
        StringsCount(whole, args + [value.value], value.rest, left - 1);
      }
    }
  }
}
