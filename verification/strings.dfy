/** String literals: their escapes, and the chunked buffer that their characters collect in. */
module Strings {

  const NUL: char := '\0'

  /** Character 0xFF cannot be told from the end of input. */
  const LAST: char := 255 as char

  /** What follows an opening quote. A format "%(" is left to the expression compiler. */
  datatype Literal = Text(text: string, rest: string) | Format(text: string, rest: string) | Failed

  function Before(c: char, l: Literal): Literal {
    match l
    case Text(t, rest) => Text([c] + t, rest)
    case Format(t, rest) => Format([c] + t, rest)
    case Failed => Failed
  }

  /** Escapes stand for one character; an unknown one for a percent sign. */
  function Unescaped(c: char): char {
    match c
    case '"' => '"'
    case '\\' => '\\'
    case 'r' => '\r'
    case 'n' => '\n'
    case 't' => '\t'
    case _ => '%'
  }

  predicate Stops(c: char) {
    c == '\r' || c == '\n' || c == NUL || c == LAST
  }

  /** The text up to the closing quote, as the compiler reads it: a percent sign before any other
      character than "(" and "%" is dropped with it, and before a quote it ends the literal. */
  function Decode(s: string): Literal {
    if s == [] || Stops(s[0]) then Failed
    else if s[0] == '"' then Text([], s[1..])
    else if s[0] == '%' then
      if |s| == 1 then Failed
      else if s[1] == '(' then Format([], s[2..])
      else if s[1] == '%' then Before('%', Decode(s[2..]))
      else if s[1] == '"' then Text([], s[2..])
      else Decode(s[2..])
    else if s[0] == '\\' then
      if |s| == 1 then Failed else Before(Unescaped(s[1]), Decode(s[2..]))
    else Before(s[0], Decode(s[1..]))
  }

  /** How to write a character in a literal. */
  function Escaped(c: char): string {
    match c
    case '%' => "%%"
    case '"' => "\\\""
    case '\\' => "\\\\"
    case '\r' => "\\r"
    case '\n' => "\\n"
    case '\t' => "\\t"
    case _ => [c]
  }

  function Escape(t: string): string {
    if t == [] then [] else Escaped(t[0]) + Escape(t[1..])
  }

  lemma EscapedCharDecodes(c: char, more: string)
    requires c != NUL && c != LAST
    ensures Decode(Escaped(c) + more) == Before(c, Decode(more))
  {
    var s := Escaped(c) + more;
    if |Escaped(c)| == 1 {
      assert s[0] == c && s[1..] == more;
    } else {
      assert s[0] == Escaped(c)[0] && s[1] == Escaped(c)[1] && s[2..] == more;
    }
  }

  /** The characters that have an escape of their own, by the one behind the backslash. */
  const DENOTED: map<char, char> := map['"' := '"', '\\' := '\\', 'r' := '\r', 'n' := '\n', 't' := '\t']

  lemma EscapesDenote(c: char, more: string)
    ensures Decode(['\\', c] + more) == Before(if c in DENOTED then DENOTED[c] else '%', Decode(more))
  {
    assert (['\\', c] + more)[2..] == more;
  }

  /** A percent sign is written twice; before "(" it makes the literal a format, before a quote it ends it,
      and before any other character it is dropped with that. */
  lemma PercentSigns(c: char, more: string)
    ensures Decode(['%', c] + more) ==
      match c
      case '%' => Before('%', Decode(more))
      case '(' => Format("", more)
      case '"' => Text("", more)
      case _ => Decode(more)
  {
    assert (['%', c] + more)[2..] == more;
  }

  /** Decoding what was escaped gives it back, and stops at the quote after it. */
  lemma {:induction false} EscapedDecodes(t: string, rest: string)
    requires NUL !in t && LAST !in t
    ensures Decode(Escape(t) + "\"" + rest) == Text(t, rest)
  {
    if t == [] {
      assert Escape(t) + "\"" + rest == "\"" + rest;
      assert ("\"" + rest)[1..] == rest;
    } else {
      EscapedDecodes(t[1..], rest);
      assert t[0] in t;
      var more := Escape(t[1..]) + "\"" + rest;
      EscapedCharDecodes(t[0], more);
      assert Escape(t) + "\"" + rest == Escaped(t[0]) + more;
    }
  }

  /** No literal stands for a text with a NUL or a 0xFF. */
  lemma {:induction false} NeverDecoded(s: string)
    requires Decode(s).Text?
    ensures NUL !in Decode(s).text && LAST !in Decode(s).text
    decreases |s|
  {
    if s[0] == '"' || (s[0] == '%' && s[1] == '"') {
    } else if s[0] == '%' || s[0] == '\\' {
      NeverDecoded(s[2..]);
    } else {
      NeverDecoded(s[1..]);
    }
  }

  /** So the texts that literals stand for are exactly those without. */
  lemma WritableTexts(t: string)
    ensures (exists s: string :: Decode(s).Text? && Decode(s).text == t) <==> NUL !in t && LAST !in t
  {
    if NUL !in t && LAST !in t {
      EscapedDecodes(t, "");
      assert Decode(Escape(t) + "\"" + "").text == t;
    }
    forall s: string | Decode(s).Text? && Decode(s).text == t ensures NUL !in t && LAST !in t {
      NeverDecoded(s);
    }
  }

  /** The literal with more text in front. */
  function InFront(t: string, l: Literal): Literal {
    match l
    case Text(more, rest) => Text(t + more, rest)
    case Format(more, rest) => Format(t + more, rest)
    case Failed => Failed
  }

  lemma InFrontOfOne(t: string, c: char, l: Literal)
    ensures InFront(t, Before(c, l)) == InFront(t + [c], l)
  {
    if !l.Failed? { assert t + ([c] + l.text) == (t + [c]) + l.text; }
  }

  lemma NothingInFront(l: Literal)
    ensures InFront([], l) == l
  {
    if !l.Failed? { assert [] + l.text == l.text; }
  }

  // ----- the chunked buffer -----

  const CHUNK: nat := 16

  class Chunk {
    const buffer: array<char>
    var indexCurrent: nat
    var previous: Chunk?

    constructor (below: Chunk?)
      ensures fresh(buffer) && buffer.Length == CHUNK && indexCurrent == 0 && previous == below
    {
      buffer, indexCurrent, previous := new char[CHUNK](_ => NUL), 0, below;
    }
  }

  /** Chunks of characters, the last one on top. All but the top are full. Ghost state: the chunks
      from the first on, and the text they hold. */
  class StringBuffer {
    var top: Chunk?
    ghost var chunks: seq<Chunk>
    ghost var place: map<array<char>, nat>
    ghost var text: string

    constructor ()
      ensures Valid() && text == []
    {
      top, chunks, place, text := null, [], map[], [];
    }

    /** Chunk i holds the text from 16 * i on. */
    ghost predicate Holds(i: nat)
      requires i < |chunks|
      reads this, chunks[i], chunks[i].buffer
    {
      var c := chunks[i];
      && c.buffer.Length == CHUNK && c.buffer in place && place[c.buffer] == i
      && c.indexCurrent == (if i < |chunks| - 1 then CHUNK else |text| - CHUNK * i) && 0 < c.indexCurrent <= CHUNK
        && CHUNK * i + c.indexCurrent <= |text|
      && c.previous == (if i == 0 then null else chunks[i - 1])
      && forall k :: 0 <= k < c.indexCurrent ==> c.buffer[k] == text[CHUNK * i + k]
    }

    ghost predicate Valid()
      reads this, chunks, set c | c in chunks :: c.buffer
    {
      && top == (if chunks == [] then null else chunks[|chunks| - 1])
      && (chunks == [] <==> text == []) && CHUNK * (|chunks| - 1) <= |text| <= CHUNK * |chunks|
      && forall i {:trigger Holds(i)} :: 0 <= i < |chunks| ==> Holds(i)
    }

    /** Adds one character. */
    method Push(newCharacter: char)
      requires Valid()
      modifies this, top, if top == null then {} else {top.buffer}
      ensures Valid() && text == old(text) + [newCharacter]
      ensures top == old(top) || (fresh(top) && fresh(top.buffer))
    {
      if top != null && top.indexCurrent < CHUNK {
        assert Holds(|chunks| - 1);
        top.buffer[top.indexCurrent] := newCharacter;
      } else {
        if top != null { assert Holds(|chunks| - 1); }
        var next := new Chunk(top);
        next.buffer[0] := newCharacter;
        place := place[next.buffer := |chunks|];
        top, chunks := next, chunks + [next];
      }
      top.indexCurrent := top.indexCurrent + 1;
      text := text + [newCharacter];
      forall i | 0 <= i < |chunks| ensures Holds(i) {
        assert i < |old(chunks)| ==> old(Holds(i));
      }
    }

    /** The characters in all chunks. */
    method Size() returns (size: nat)
      requires Valid()
      ensures size == |text|
    {
      size := 0;
      var current := top;
      ghost var n: int := |chunks|;
      while current != null
        invariant 0 <= n <= |chunks| && current == (if n == 0 then null else chunks[n - 1])
        invariant size == |text| - if n == |chunks| then |text| else CHUNK * n
        decreases n
      {
        assert Holds(n - 1);
        size := size + current.indexCurrent;
        current := current.previous;
        n := n - 1;
      }
    }

    /** The text in one piece, filled from its end. */
    method Commit() returns (result: array<char>)
      requires Valid()
      ensures fresh(result) && result[..] == text + [NUL]
    {
      var position := Size();
      result := new char[position + 1](_ => NUL);
      var current := top;
      ghost var n: int := |chunks|;
      while current != null
        invariant 0 <= n <= |chunks| && current == (if n == 0 then null else chunks[n - 1])
        invariant position == (if n == |chunks| then |text| else CHUNK * n)
        invariant forall k :: position <= k < |text| ==> result[k] == text[k]
        invariant result[|text|] == NUL
        decreases n
      {
        assert Holds(n - 1);
        position := position - current.indexCurrent;
        forall k | 0 <= k < current.indexCurrent { result[position + k] := current.buffer[k]; }
        current := current.previous;
        n := n - 1;
      }
    }
  }

  // ----- the compiler's loop -----

  datatype Next = Going | Ended | AtFormat | Broken

  /** One turn of the loop: one character, or two where the first says so. Ghost: what is left to read. */
  method Turn(source: string, position: nat, buffer: StringBuffer) returns (after: nat, next: Next)
    requires position <= |source| && buffer.Valid()
    modifies buffer, buffer.top, if buffer.top == null then {} else {buffer.top.buffer}
    ensures buffer.Valid() && position <= after <= |source|
    ensures buffer.top == old(buffer.top) || (fresh(buffer.top) && fresh(buffer.top.buffer))
    ensures next == Going ==> position < after
    ensures InFront(old(buffer.text), Decode(source[position..])) ==
      match next
      case Going => InFront(buffer.text, Decode(source[after..]))
      case Ended => Text(buffer.text, source[after..])
      case AtFormat => Format(buffer.text, source[after..])
      case Broken => Failed
  {
    ghost var t, s := buffer.text, source[position..];
    after, next := position, Broken;
    if position == |source| || Stops(source[position]) { return; }
    after := position + 1;
    assert s[0] == source[position] && s[1..] == source[after..];
    if source[position] == '"' {
      next := Ended;
      assert t + [] == t;
    } else if source[position] == '%' || source[position] == '\\' {
      if after == |source| { return; }
      after := after + 1;
      assert s[1] == source[position + 1] && s[2..] == source[after..];
      if source[position] == '\\' {
        buffer.Push(Unescaped(source[position + 1]));
        next := Going;
        InFrontOfOne(t, Unescaped(s[1]), Decode(s[2..]));
      } else if source[position + 1] == '(' {
        next := AtFormat;
        assert t + [] == t;
      } else if source[position + 1] == '%' {
        buffer.Push('%');
        next := Going;
        InFrontOfOne(t, '%', Decode(s[2..]));
      } else {
        next := if source[position + 1] == '"' then Ended else Going;
        assert t + [] == t;
      }
    } else {
      buffer.Push(source[position]);
      next := Going;
      InFrontOfOne(t, s[0], Decode(s[1..]));
    }
  }

  /** Reads a literal up to its closing quote or its first format. A text without characters has no
      buffer and gives no value. */
  method ParseString(source: string) returns (next: Next, value: array?<char>, position: nat)
    ensures next != Going && position <= |source|
    ensures next == Broken <==> Decode(source) == Failed
    ensures next == Broken ==> value == null
    ensures next == Ended <==> Decode(source).Text?
    ensures next != Broken ==> Decode(source).rest == source[position..]
    ensures next != Broken ==> (value == null <==> Decode(source).text == [])
    ensures value != null ==> fresh(value) && value[..] == Decode(source).text + [NUL]
  {
    var buffer := new StringBuffer();
    position, next, value := 0, Going, null;
    NothingInFront(Decode(source));
    assert source[0..] == source;
    while next == Going
      invariant position <= |source| && fresh(buffer) && buffer.Valid()
      invariant buffer.top != null ==> fresh(buffer.top) && fresh(buffer.top.buffer)
      invariant Decode(source) ==
        match next
        case Going => InFront(buffer.text, Decode(source[position..]))
        case Ended => Text(buffer.text, source[position..])
        case AtFormat => Format(buffer.text, source[position..])
        case Broken => Failed
      decreases next == Going, |source| - position
    {
      position, next := Turn(source, position, buffer);
    }
    if next != Broken && buffer.top != null {
      value := buffer.Commit();
    }
  }
}
