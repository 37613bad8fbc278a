/** Editing one line of UTF-8 text at a byte cursor (src/app.rs, src/entry.rs):
    the byte-level code edits the line character by character. */
module ComposerCursor {
  import opened Characters

  newtype byte = x: int | 0 <= x < 256

  type Text = seq<char>

  // ---- UTF-8 (section 3 of RFC 3629) ---------------------------------------

  predicate Continuation(b: byte) {
    0x80 <= b < 0xC0
  }

  function Tail(n: nat): byte {
    (0x80 + n % 0x40) as byte
  }

  function EncodeChar(c: char): (bytes: seq<byte>)
    ensures 1 <= |bytes| <= 4 && !Continuation(bytes[0])
    ensures forall i :: 1 <= i < |bytes| ==> Continuation(bytes[i])
  {
    var n := c as int;
    if n < 0x80 then [n as byte]
    else if n < 0x800 then [(0xC0 + n / 0x40) as byte, Tail(n)]
    else if n < 0x1_0000 then [(0xE0 + n / 0x1000) as byte, Tail(n / 0x40), Tail(n)]
    else [(0xF0 + n / 0x4_0000) as byte, Tail(n / 0x1000), Tail(n / 0x40), Tail(n)]
  }

  function Encode(text: Text): seq<byte> {
    if text == [] then [] else Encode(text[..|text| - 1]) + EncodeChar(text[|text| - 1])
  }

  function Payload(b: byte): int {
    b as int - 0x80
  }

  /** The number a lead byte and its continuation bytes stand for. */
  function Decoded(b: seq<byte>): int
    requires 1 <= |b| <= 4
  {
    if |b| == 1 then b[0] as int
    else if |b| == 2 then (b[0] as int - 0xC0) * 0x40 + Payload(b[1])
    else if |b| == 3 then (b[0] as int - 0xE0) * 0x1000 + Payload(b[1]) * 0x40 + Payload(b[2])
    else (b[0] as int - 0xF0) * 0x4_0000 + Payload(b[1]) * 0x1000 + Payload(b[2]) * 0x40 + Payload(b[3])
  }

  lemma {:induction false} SplitBits(n: nat)
    ensures n == n / 0x40 * 0x40 + n % 0x40
    ensures n / 0x1000 == n / 0x40 / 0x40 && n / 0x4_0000 == n / 0x1000 / 0x40
    ensures Payload(Tail(n)) == n % 0x40
  {
  }

  lemma {:induction false} DecodesBack(c: char)
    ensures Decoded(EncodeChar(c)) == c as int
  {
    var n := c as int;
    SplitBits(n);
    SplitBits(n / 0x40);
    SplitBits(n / 0x1000);
    hide Tail, Payload;
  }

  lemma {:induction false} EncodeAppend(a: Text, b: Text)
    ensures Encode(a + b) == Encode(a) + Encode(b)
  {
    hide EncodeChar;
    if b == [] {
      assert a + b == a;
    } else {
      var front, c := b[..|b| - 1], b[|b| - 1];
      assert (a + b)[..|a + b| - 1] == a + front && (a + b)[|a + b| - 1] == c;
      assert Encode(a + b) == Encode(a + front) + EncodeChar(c) && Encode(b) == Encode(front) + EncodeChar(c);
      hide *;
      EncodeAppend(a, front);
    }
  }

  lemma {:induction false} EncodeOne(c: char)
    ensures Encode([c]) == EncodeChar(c)
  {
    assert [c][..0] == [];
  }

  /** Where the `k`-th character starts. */
  function Offset(text: Text, k: nat): nat
    requires k <= |text|
  {
    |Encode(text[..k])|
  }

  lemma {:induction false} CharAt(text: Text, k: nat)
    requires k < |text|
    ensures Offset(text, k) < Offset(text, k + 1) <= |Encode(text)|
    ensures Encode(text) == Encode(text[..k]) + EncodeChar(text[k]) + Encode(text[k + 1..])
    ensures Offset(text, k + 1) == Offset(text, k) + |EncodeChar(text[k])|
  {
    var a, c, b := text[..k], text[k], text[k + 1..];
    assert text == a + ([c] + b) && text[..k + 1] == a + [c];
    assert Offset(text, k) == |Encode(a)| && Offset(text, k + 1) == |Encode(a + [c])|;
    hide *;
    EncodeOne(c);
    EncodeAppend(a, [c] + b);
    EncodeAppend([c], b);
    EncodeAppend(a, [c]);
    ConcatAssoc(Encode(a), EncodeChar(c), Encode(b));
  }

  lemma {:induction false} ConcatAssoc(a: seq<byte>, b: seq<byte>, c: seq<byte>)
    ensures a + (b + c) == a + b + c && |a + b + c| == |a| + |b| + |c|
  {
  }

  /** The bytes of a character: a lead byte, then continuation bytes. */
  lemma {:induction false} CharBytes(text: Text, k: nat)
    requires k < |text|
    ensures Offset(text, k) < Offset(text, k + 1) <= |Encode(text)|
    ensures !Continuation(Encode(text)[Offset(text, k)])
    ensures forall j :: Offset(text, k) < j < Offset(text, k + 1) ==> Continuation(Encode(text)[j])
  {
    CharAt(text, k);
    var o, bytes := Offset(text, k), EncodeChar(text[k]);
    hide Offset, Encode, EncodeChar;
    assert forall j :: o <= j < o + |bytes| ==> Encode(text)[j] == bytes[j - o];
  }

  /** A position where no character is cut. */
  predicate Boundary(buf: seq<byte>, i: nat) {
    i == 0 || i == |buf| || (i < |buf| && !Continuation(buf[i]))
  }

  /** Exactly the starts of characters and the end of the text are boundaries. */
  lemma {:induction false} BoundaryIsOffset(text: Text, i: nat)
    requires i <= |Encode(text)|
    ensures Boundary(Encode(text), i) <==> exists k :: 0 <= k <= |text| && Offset(text, k) == i
  {
    var buf := Encode(text);
    assert text[..|text|] == text && text[..0] == [];
    assert Offset(text, |text|) == |buf| && Offset(text, 0) == 0;
    if i < |buf| {
      var k := CharHolding(text, i);
      CharBytes(text, k);
      if Continuation(buf[i]) {
        forall m | 0 <= m <= |text|
          ensures Offset(text, m) != i
        {
          if m < |text| { CharBytes(text, m); }
        }
      }
    }
  }

  /** The character a byte belongs to. */
  lemma {:induction false} CharHolding(text: Text, i: nat) returns (k: nat)
    requires i < |Encode(text)|
    ensures k < |text| && Offset(text, k) <= i < Offset(text, k + 1)
  {
    k := 0;
    assert text[..0] == [];
    while Offset(text, k + 1) <= i
      invariant k < |text| && Offset(text, k) <= i
      decreases |text| - k
    {
      assert text[..|text|] == text;
      k := k + 1;
    }
  }

  // ---- The line, character by character ------------------------------------

  /** A line and the number of characters before the cursor. */
  datatype Line = Line(text: Text, at: nat)

  ghost predicate InLine(l: Line) {
    l.at <= |l.text|
  }

  function Inserted(l: Line, c: char): Line
    requires InLine(l)
  {
    var shown := if c == '\n' then ' ' else c;
    Line(l.text[..l.at] + [shown] + l.text[l.at..], l.at + 1)
  }

  function Backspaced(l: Line): Line
    requires InLine(l)
  {
    if l.at == 0 then l else Line(l.text[..l.at - 1] + l.text[l.at..], l.at - 1)
  }

  function MovedLeft(l: Line): Line {
    if l.at == 0 then l else l.(at := l.at - 1)
  }

  function MovedRight(l: Line): Line {
    if l.at >= |l.text| then l else l.(at := l.at + 1)
  }

  /** What a pasted character adds. */
  function PastedChar(c: char, allowNewlines: bool): Text {
    if c == '\r' then []
    else if c == '\n' && !allowNewlines then [' ']
    else if Control(c) && c != '\n' then []
    else [c]
  }

  function PastedText(data: Text, allowNewlines: bool): Text {
    if data == [] then [] else
    PastedText(data[..|data| - 1], allowNewlines) + PastedChar(data[|data| - 1], allowNewlines)
  }

  /** Pasted text goes to the end of the line; the cursor stays. */
  function Pasted(l: Line, data: Text, allowNewlines: bool): Line {
    l.(text := l.text + PastedText(data, allowNewlines))
  }

  datatype Op = Insert(c: char) | Backspace | Left | Right | Home | End | Paste(data: Text, allowNewlines: bool)

  function Edited(l: Line, op: Op): (r: Line)
    requires InLine(l)
    ensures InLine(r)
  {
    match op
    case Insert(c) => Inserted(l, c)
    case Backspace => Backspaced(l)
    case Left => MovedLeft(l)
    case Right => MovedRight(l)
    case Home => l.(at := 0)
    case End => l.(at := |l.text|)
    case Paste(data, allowNewlines) => Pasted(l, data, allowNewlines)
  }

  function EditedAll(l: Line, ops: seq<Op>): (r: Line)
    requires InLine(l)
    ensures InLine(r)
  {
    if ops == [] then l else Edited(EditedAll(l, ops[..|ops| - 1]), ops[|ops| - 1])
  }

  lemma {:induction false} BackspaceUndoesInsert(l: Line, c: char)
    requires InLine(l)
    ensures Backspaced(Inserted(l, c)) == l
  {
    var i := Inserted(l, c);
    assert i.text[..l.at] == l.text[..l.at] && i.text[l.at + 1..] == l.text[l.at..];
    assert l.text == l.text[..l.at] + l.text[l.at..];
  }

  /** Left undoes right, except at the end, and right undoes left, except at the
      start. */
  lemma {:induction false} MovesUndo(l: Line)
    requires InLine(l)
    ensures MovedLeft(MovedRight(l)) == l <==> l.at < |l.text| || l.at == 0
    ensures MovedRight(MovedLeft(l)) == l <==> l.at > 0 || l.text == []
  {
  }

  /** A single-line composer stays a single line without carriage returns. */
  lemma {:induction false} PasteKeepsOneLine(data: Text)
    ensures forall i :: 0 <= i < |PastedText(data, false)| ==>
              PastedText(data, false)[i] != '\n' && PastedText(data, false)[i] != '\r'
  {
    if data != [] {
      PasteKeepsOneLine(data[..|data| - 1]);
    }
  }

  /** Pasting keeps the characters, in order, but carriage returns and control
      characters; a newline becomes a space where newlines aren't allowed. */
  ghost predicate PastedAs(data: Text, added: Text, allowNewlines: bool) {
    exists at: seq<nat> :: PastedAt(data, added, allowNewlines, at)
  }

  ghost predicate PastedAt(data: Text, added: Text, allowNewlines: bool, at: seq<nat>) {
    && |at| == |added|
    && (forall k :: 0 <= k < |at| ==>
          at[k] < |data| && added[k] == if data[at[k]] == '\n' && !allowNewlines then ' ' else data[at[k]])
    && (forall j, k :: 0 <= j < k < |at| ==> at[j] < at[k])
    && (forall i: nat :: i < |data| ==>
          (i in at <==> data[i] != '\r' && (data[i] == '\n' || !Control(data[i]))))
  }

  lemma {:induction false} PastedTextAt(data: Text, allowNewlines: bool) returns (at: seq<nat>)
    ensures PastedAt(data, PastedText(data, allowNewlines), allowNewlines, at)
  {
    hide PastedAt, PastedChar;
    if data == [] {
      at := [];
      NothingPasted(allowNewlines);
    } else {
      var n := |data| - 1;
      var before := PastedTextAt(data[..n], allowNewlines);
      assert data == data[..n] + [data[n]];
      at := PastedMore(data[..n], data[n], PastedText(data[..n], allowNewlines), allowNewlines, before);
    }
  }

  lemma {:induction false} NothingPasted(allowNewlines: bool)
    ensures PastedAt([], [], allowNewlines, [])
  {
  }

  lemma {:induction false} PastedMore(data: Text, c: char, added: Text, allowNewlines: bool, before: seq<nat>)
    returns (at: seq<nat>)
    requires PastedAt(data, added, allowNewlines, before)
    ensures PastedAt(data + [c], added + PastedChar(c, allowNewlines), allowNewlines, at)
  {
    hide Control;
    var n, more := |data|, data + [c];
    assert n !in before && more[n] == c && forall i :: 0 <= i < n ==> more[i] == data[i];
    at := before;
    if c != '\r' && (c == '\n' || !Control(c)) {
      at := before + [n];
    } else {
      assert added + [] == added;
    }
  }

  lemma {:induction false} EditTwice(l: Line, a: Op, b: Op)
    requires InLine(l)
    ensures EditedAll(l, [a, b]) == Edited(Edited(l, a), b)
  {
    assert [a, b][..1] == [a] && [a][..0] == [];
    assert EditedAll(l, []) == l;
  }

  /** Where a character typed after another key goes: before all, after all, before
      the last one or after the next one, or in place of the last one. */
  lemma {:induction false} KeysPlace(l: Line, c: char)
    requires InLine(l) && c != '\n'
    ensures EditedAll(l, [Home, Insert(c)]).text == [c] + l.text
    ensures EditedAll(l, [End, Insert(c)]).text == l.text + [c]
    ensures l.at > 0 ==> EditedAll(l, [Left, Insert(c)]).text == l.text[..l.at - 1] + [c] + l.text[l.at - 1..]
    ensures l.at < |l.text| ==> EditedAll(l, [Right, Insert(c)]).text == l.text[..l.at + 1] + [c] + l.text[l.at + 1..]
    ensures l.at > 0 ==> EditedAll(l, [Backspace, Insert(c)]).text == l.text[..l.at - 1] + [c] + l.text[l.at..]
  {
    EditTwice(l, Home, Insert(c));
    EditTwice(l, End, Insert(c));
    EditTwice(l, Left, Insert(c));
    EditTwice(l, Right, Insert(c));
    EditTwice(l, Backspace, Insert(c));
    hide EditedAll;
    var t, at := l.text, l.at;
    assert t[..0] == [] && t[0..] == t && t[..|t|] == t && t[|t|..] == [];
    if at > 0 {
      var less := t[..at - 1] + t[at..];
      assert less[..at - 1] == t[..at - 1] && less[at - 1..] == t[at..];
    }
  }

  lemma {:induction false} EditsKeepOneLine(l: Line, ops: seq<Op>)
    requires InLine(l) && (forall i :: 0 <= i < |l.text| ==> l.text[i] != '\n')
    requires forall op :: op in ops && op.Paste? ==> !op.allowNewlines
    ensures forall i :: 0 <= i < |EditedAll(l, ops).text| ==> EditedAll(l, ops).text[i] != '\n'
    decreases |ops|
  {
    if ops != [] {
      var last := ops[|ops| - 1];
      assert last in ops;
      EditsKeepOneLine(l, ops[..|ops| - 1]);
      if last.Paste? {
        PasteKeepsOneLine(last.data);
      }
    }
  }

  // ---- The composer --------------------------------------------------------

  /** One byte at the cursor or before it, in terms of characters. */
  lemma {:induction false} AtCursor(text: Text, at: nat)
    requires at <= |text|
    ensures Offset(text, at) <= |Encode(text)|
    ensures Encode(text)[..Offset(text, at)] == Encode(text[..at])
            && Encode(text)[Offset(text, at)..] == Encode(text[at..])
  {
    assert text == text[..at] + text[at..];
    EncodeAppend(text[..at], text[at..]);
  }

  lemma {:induction false} InsertBytes(text: Text, at: nat, c: char)
    requires at <= |text|
    ensures var more := text[..at] + [c] + text[at..];
            && Encode(more) == Encode(text[..at]) + EncodeChar(c) + Encode(text[at..])
            && Offset(more, at + 1) == Offset(text, at) + |EncodeChar(c)|
  {
    var more := text[..at] + [c] + text[at..];
    EncodeAppend(text[..at] + [c], text[at..]);
    EncodeAppend(text[..at], [c]);
    EncodeOne(c);
    assert more[..at + 1] == text[..at] + [c];
  }

  lemma {:induction false} RemoveBytes(text: Text, at: nat)
    requires 0 < at <= |text|
    ensures var less := text[..at - 1] + text[at..];
            && Encode(less) == Encode(text[..at - 1]) + Encode(text[at..])
            && Offset(less, at - 1) == Offset(text, at - 1)
  {
    EncodeAppend(text[..at - 1], text[at..]);
    assert (text[..at - 1] + text[at..])[..at - 1] == text[..at - 1];
  }

  lemma {:induction false} AppendBytes(text: Text, at: nat, more: Text)
    requires at <= |text|
    ensures Encode(text + more) == Encode(text) + Encode(more) && Offset(text + more, at) == Offset(text, at)
  {
    EncodeAppend(text, more);
    assert (text + more)[..at] == text[..at];
  }

  lemma {:induction false} InsertLine(l: Line, c: char)
    requires InLine(l)
    ensures var buf, cursor, bytes := Encode(l.text), Offset(l.text, l.at), EncodeChar(if c == '\n' then ' ' else c);
            && cursor <= |buf| && InLine(Inserted(l, c))
            && Encode(Inserted(l, c).text) == buf[..cursor] + bytes + buf[cursor..]
            && Offset(Inserted(l, c).text, l.at + 1) == cursor + |bytes| && Inserted(l, c).at == l.at + 1
  {
    hide Encode, Offset, EncodeChar;
    AtCursor(l.text, l.at);
    InsertBytes(l.text, l.at, if c == '\n' then ' ' else c);
  }

  lemma {:induction false} BackspaceLine(l: Line)
    requires InLine(l)
    ensures l.at == 0 || Offset(l.text, l.at) > 0
    ensures l.at > 0 ==>
              var buf, cursor, before := Encode(l.text), Offset(l.text, l.at), Offset(l.text, l.at - 1);
              && before < cursor <= |buf| && InLine(Backspaced(l)) && Backspaced(l).at == l.at - 1
              && Encode(Backspaced(l).text) == buf[..before] + buf[cursor..]
              && Offset(Backspaced(l).text, l.at - 1) == before
  {
    hide Encode, Offset, EncodeChar;
    AtStart(l.text, l.at);
    if l.at > 0 {
      CharAt(l.text, l.at - 1);
      AtCursor(l.text, l.at);
      AtCursor(l.text, l.at - 1);
      RemoveBytes(l.text, l.at);
    }
  }

  /** From a character's start, the next boundary is where the next one starts. */
  lemma {:induction false} NextBoundary(text: Text, at: nat)
    requires at < |text|
    ensures var buf, cursor, next := Encode(text), Offset(text, at), Offset(text, at + 1);
            && cursor < next <= |buf| && Boundary(buf, cursor) && Boundary(buf, next)
            && forall j :: cursor < j < next ==> !Boundary(buf, j)
  {
    hide Offset, Encode;
    CharBytes(text, at);
    BoundaryIsOffset(text, Offset(text, at));
    BoundaryIsOffset(text, Offset(text, at + 1));
  }

  class Composer {
    var buf: seq<byte>
    var cursor: nat
    ghost var line: Line

    /** The buffer is the UTF-8 of the line and the cursor is where the next
        character starts. */
    ghost predicate Valid()
      reads this
    {
      InLine(line) && buf == Encode(line.text) && cursor == Offset(line.text, line.at)
    }

    constructor ()
      ensures Valid() && line == Line([], 0)
    {
      buf, cursor, line := [], 0, Line([], 0);
    }

    /** The start of the character before `cursor`. */
    method Previous(cur: nat) returns (i: nat)
      requires Valid() && cur == cursor && cur > 0
      ensures line.at > 0 && i == Offset(line.text, line.at - 1) < cur
    {
      AtStart(line.text, line.at);
      NoBytesBefore(line.text);
      NextBoundary(line.text, line.at - 1);
      hide Offset, Encode, Boundary;
      i := cur - 1;
      while !Boundary(buf, i)
        invariant Offset(line.text, line.at - 1) <= i < cur
        decreases i
      {
        i := i - 1;
      }
    }

    method Left() returns (moved: bool)
      requires Valid()
      modifies this
      ensures Valid() && line == MovedLeft(old(line)) && buf == old(buf) && (moved <==> old(line).at > 0)
      ensures line.text == old(line).text && line.at == if moved then old(line).at - 1 else 0
    {
      if cursor == 0 {
        AtStart(line.text, line.at);
        return false;
      }
      var i := Previous(cursor);
      cursor := i;
      line := MovedLeft(line);
      moved := true;
    }

    method Right()
      requires Valid()
      modifies this
      ensures Valid() && line == MovedRight(old(line)) && buf == old(buf)
      ensures line.text == old(line).text
      ensures line.at == if old(line).at < |line.text| then old(line).at + 1 else |line.text|
    {
      hide Offset, Encode, Boundary;
      AtCursor(line.text, line.at);
      AtEnd(line.text, line.at);
      if cursor >= |buf| {
        cursor := |buf|;
        return;
      }
      NextBoundary(line.text, line.at);
      var i := cursor + 1;
      while i < |buf| && !Boundary(buf, i)
        invariant cursor < i <= Offset(line.text, line.at + 1) <= |buf|
      {
        i := i + 1;
      }
      cursor := i;
      line := MovedRight(line);
    }

    method Home()
      requires Valid()
      modifies this
      ensures Valid() && line == old(line).(at := 0) && buf == old(buf)
    {
      cursor := 0;
      line := line.(at := 0);
      NoBytesBefore(line.text);
    }

    method End()
      requires Valid()
      modifies this
      ensures Valid() && line == old(line).(at := |old(line).text|) && buf == old(buf)
    {
      cursor := |buf|;
      line := line.(at := |line.text|);
      assert line.text[..|line.text|] == line.text;
    }

    method Insert(c: char)
      requires Valid()
      modifies this
      ensures Valid() && line == Inserted(old(line), c) && line.at == old(line).at + 1
      ensures var at, text := old(line).at, old(line).text;
              at <= |text| && line.text == text[..at] + [if c == '\n' then ' ' else c] + text[at..]
    {
      var shown := if c == '\n' then ' ' else c;
      InsertLine(line, c);
      hide *;
      var bytes := EncodeChar(shown);
      buf := buf[..cursor] + bytes + buf[cursor..];
      cursor := cursor + |bytes|;
      line := Inserted(line, c);
    }

    method Backspace()
      requires Valid()
      modifies this
      ensures Valid() && line == Backspaced(old(line))
      ensures var at, text := old(line).at, old(line).text;
              at <= |text|
              && (if at == 0 then line == old(line) else line.at == at - 1 && line.text == text[..at - 1] + text[at..])
    {
      if cursor == 0 {
        AtStart(line.text, line.at);
        return;
      }
      BackspaceLine(line);
      var i := Previous(cursor);
      hide Encode, Offset, Backspaced;
      buf := buf[..i] + buf[cursor..];
      cursor := i;
      line := Backspaced(line);
    }

    method Paste(data: Text, allowNewlines: bool)
      requires Valid()
      modifies this
      ensures Valid() && line == Pasted(old(line), data, allowNewlines) && cursor == old(cursor)
      ensures line.at == old(line).at
      ensures exists added: Text :: line.text == old(line).text + added && PastedAs(data, added, allowNewlines)
    {
      ghost var was := line;
      hide Offset, Encode, EncodeChar;
      assert was.text + [] == was.text;
      for i := 0 to |data|
        invariant Valid() && line == Pasted(was, data[..i], allowNewlines) && cursor == old(cursor)
      {
        var c := data[i];
        assert data[..i + 1][..i] == data[..i] && data[..i + 1][i] == c;
        ghost var more := PastedChar(c, allowNewlines);
        AppendBytes(line.text, line.at, more);
        if c == '\r' {
        } else if c == '\n' && !allowNewlines {
          EncodeOne(' ');
          buf := buf + EncodeChar(' ');
        } else if Control(c) && c != '\n' {
        } else {
          EncodeOne(c);
          buf := buf + EncodeChar(c);
        }
        NothingEncoded();
        assert was.text + (PastedText(data[..i], allowNewlines) + more) == line.text + more;
        line := line.(text := line.text + more);
      }
      assert data[..|data|] == data;
      ghost var at := PastedTextAt(data, allowNewlines);
      assert PastedAs(data, PastedText(data, allowNewlines), allowNewlines);
    }

    /** Any sequence of edits: the bytes stay the UTF-8 of the edited line, with the
        cursor between characters. */
    method Run(ops: seq<Op>)
      requires Valid()
      modifies this
      ensures Valid() && line == EditedAll(old(line), ops)
    {
      hide Inserted, Backspaced, Pasted, MovedLeft, MovedRight, Offset, Encode;
      for i := 0 to |ops|
        invariant Valid() && line == EditedAll(old(line), ops[..i])
      {
        assert ops[..i + 1][..i] == ops[..i] && ops[..i + 1][i] == ops[i];
        match ops[i] {
          case Insert(c) => Insert(c);
          case Backspace => Backspace();
          case Left => var moved := Left();
          case Right => Right();
          case Home => Home();
          case End => End();
          case Paste(data, allowNewlines) => Paste(data, allowNewlines);
        }
      }
      assert ops[..|ops|] == ops;
    }
  }

  lemma {:induction false} NothingEncoded()
    ensures Encode([]) == []
  {
  }

  lemma {:induction false} NoBytesBefore(text: Text)
    ensures Offset(text, 0) == 0
  {
    assert text[..0] == [];
  }

  lemma {:induction false} AtStart(text: Text, at: nat)
    requires at <= |text|
    ensures at == 0 || Offset(text, at) > 0
  {
    if at > 0 {
      CharAt(text, at - 1);
    }
  }

  lemma {:induction false} AtEnd(text: Text, at: nat)
    requires at <= |text|
    ensures Offset(text, at) == |Encode(text)| <==> at == |text|
  {
    if at < |text| {
      CharAt(text, at);
    } else {
      assert text[..at] == text;
    }
  }
}
