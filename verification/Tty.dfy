/** The line editor of the console's login program, over 7-bit input. */
module Tty {
  import opened Sequences

  type ascii = c: int | 0 <= c < 128

  const CTRL_C: ascii := 0x03
  const BACKSPACE: ascii := 0x08
  const NEWLINE: ascii := 0x0A
  const RETURN: ascii := 0x0D
  const SPACE: ascii := 0x20
  const CARET: ascii := 0x5E
  const DEL: ascii := 0x7F

  /** iscntrl. */
  predicate IsControl(c: ascii) {
    c < 0x20 || c == DEL
  }

  // ----- What a line of input means -----

  predicate Ends(c: ascii) {
    c == CTRL_C || c == RETURN
  }

  predicate Ended(kept: seq<ascii>) {
    kept != [] && Ends(kept[|kept| - 1])
  }

  predicate Full(kept: seq<ascii>, capacity: nat) {
    |kept| >= capacity || Ended(kept)
  }

  /** Only the last kept character can end a line, and no deletion is ever kept. */
  predicate Plain(kept: seq<ascii>) {
    (forall k | 0 <= k < |kept| :: kept[k] != DEL) && forall k | 0 <= k < |kept| - 1 :: !Ends(kept[k])
  }

  function Feed(kept: seq<ascii>, c: ascii): seq<ascii> {
    if c != DEL then kept + [c] else if kept == [] then [] else kept[..|kept| - 1]
  }

  /** The line: a deletion takes the last character away, and nothing counts once it is full. */
  function Edit(kept: seq<ascii>, input: seq<ascii>, capacity: nat): seq<ascii>
    decreases |input|
  {
    if input == [] || Full(kept, capacity) then kept else Edit(Feed(kept, input[0]), input[1..], capacity)
  }

  /** What one character makes the editor print. */
  function Reply(kept: seq<ascii>, c: ascii, noEcho: bool): seq<ascii> {
    if !IsControl(c) then if noEcho then [] else [c]
    else if c == DEL then
      if kept == [] then []
      else if kept[|kept| - 1] < 0x20 then [BACKSPACE, BACKSPACE, SPACE, SPACE, BACKSPACE, BACKSPACE]
      else if noEcho then [] else [BACKSPACE, SPACE, BACKSPACE]
    else if Ends(c) then [] else [CARET, c + 0x40]
  }

  function Echo(kept: seq<ascii>, input: seq<ascii>, capacity: nat, noEcho: bool): seq<ascii>
    decreases |input|
  {
    if input == [] || Full(kept, capacity) then []
    else Reply(kept, input[0], noEcho) + Echo(Feed(kept, input[0]), input[1..], capacity, noEcho)
  }

  lemma {:induction false} EditConcat(kept: seq<ascii>, a: seq<ascii>, b: seq<ascii>, capacity: nat, noEcho: bool)
    ensures Edit(kept, a + b, capacity) == Edit(Edit(kept, a, capacity), b, capacity)
    ensures Echo(kept, a + b, capacity, noEcho)
         == Echo(kept, a, capacity, noEcho) + Echo(Edit(kept, a, capacity), b, capacity, noEcho)
    decreases |a|
  {
    if a == [] {
      assert a + b == b;
    } else if !Full(kept, capacity) {
      assert (a + b)[1..] == a[1..] + b;
      EditConcat(Feed(kept, a[0]), a[1..], b, capacity, noEcho);
      var r := Reply(kept, a[0], noEcho);
      var k := Feed(kept, a[0]);
      assert r + (Echo(k, a[1..], capacity, noEcho) + Echo(Edit(kept, a, capacity), b, capacity, noEcho))
          == r + Echo(k, a[1..], capacity, noEcho) + Echo(Edit(kept, a, capacity), b, capacity, noEcho);
    }
  }

  // ----- The editor -----

  function Concat(chunks: seq<seq<ascii>>): seq<ascii> {
    if chunks == [] then [] else chunks[0] + Concat(chunks[1..])
  }

  lemma {:induction false} ConcatSnoc(chunks: seq<seq<ascii>>, chunk: seq<ascii>)
    ensures Concat(chunks + [chunk]) == Concat(chunks) + chunk
  {
    if chunks == [] {
      assert [chunk][1..] == [];
    } else {
      ConcatSnoc(chunks[1..], chunk);
      assert (chunks + [chunk])[1..] == chunks[1..] + [chunk];
    }
  }

  lemma {:induction false} ConcatSplit(chunks: seq<seq<ascii>>, u: nat)
    requires u <= |chunks|
    ensures Concat(chunks) == Concat(chunks[..u]) + Concat(chunks[u..])
  {
    if u == 0 {
      assert chunks[0..] == chunks && chunks[..0] == [];
    } else {
      ConcatSplit(chunks[1..], u - 1);
      assert chunks[..u][1..] == chunks[1..][..u - 1] && chunks[u..] == chunks[1..][u - 1..];
    }
  }

  /** The line after `used` chunks, none of which but the last may have filled it. */
  ghost predicate SoFar(kept: seq<ascii>, output: seq<ascii>, before: seq<ascii>, chunks: seq<seq<ascii>>, used: nat,
                        capacity: nat, noEcho: bool)
  {
    && used <= |chunks|
    && kept == Edit([], Concat(chunks[..used]), capacity)
    && output == before + Echo([], Concat(chunks[..used]), capacity, noEcho)
    && forall u | 0 <= u < used :: Unfilled(chunks, u, capacity)
  }

  predicate Unfilled(chunks: seq<seq<ascii>>, u: nat, capacity: nat)
    requires u <= |chunks|
  {
    !Full(Edit([], Concat(chunks[..u]), capacity), capacity)
  }

  /** Reading one more chunk. */
  lemma ChunkTaken(kept: seq<ascii>, output: seq<ascii>, before: seq<ascii>, chunks: seq<seq<ascii>>, used: nat,
                   capacity: nat, noEcho: bool)
    requires SoFar(kept, output, before, chunks, used, capacity, noEcho) && used < |chunks| && !Full(kept, capacity)
    ensures Plain(kept)
    ensures SoFar(Edit(kept, chunks[used], capacity), output + Echo(kept, chunks[used], capacity, noEcho), before,
                  chunks, used + 1, capacity, noEcho)
  {
    EditPlain([], Concat(chunks[..used]), capacity);
    OneMore(chunks, used, capacity, noEcho);
    Assoc(before, Echo([], Concat(chunks[..used]), capacity, noEcho), Echo(kept, chunks[used], capacity, noEcho));
  }

  lemma OneMore(chunks: seq<seq<ascii>>, used: nat, capacity: nat, noEcho: bool)
    requires used < |chunks|
    ensures var kept := Edit([], Concat(chunks[..used]), capacity);
            && Edit([], Concat(chunks[..used + 1]), capacity) == Edit(kept, chunks[used], capacity)
            && Echo([], Concat(chunks[..used + 1]), capacity, noEcho)
            == Echo([], Concat(chunks[..used]), capacity, noEcho) + Echo(kept, chunks[used], capacity, noEcho)
  {
    assert chunks[..used + 1] == chunks[..used] + [chunks[used]];
    ConcatSnoc(chunks[..used], chunks[used]);
    EditConcat([], Concat(chunks[..used]), chunks[used], capacity, noEcho);
  }

  /** Chunks not read make no difference once the line is full, or when there are none. */
  lemma RestIgnored(kept: seq<ascii>, output: seq<ascii>, before: seq<ascii>, chunks: seq<seq<ascii>>, used: nat,
                    capacity: nat, noEcho: bool)
    requires SoFar(kept, output, before, chunks, used, capacity, noEcho)
    requires Full(kept, capacity) || used == |chunks|
    ensures kept == Edit([], Concat(chunks), capacity)
    ensures output == before + Echo([], Concat(chunks), capacity, noEcho)
  {
    ConcatSplit(chunks, used);
    EditConcat([], Concat(chunks[..used]), Concat(chunks[used..]), capacity, noEcho);
  }

  /** Each read of the device returns one chunk of `input`; with none left it fails. */
  class Stream {
    var input: seq<seq<ascii>>
    var output: seq<ascii>

    constructor (input: seq<seq<ascii>>)
      ensures this.input == input && output == []
    {
      this.input, output := input, [];
    }

    method PutString(s: seq<ascii>)
      modifies this`output
      ensures output == old(output) + s
    {
      output := output + s;
    }

    /** One turn of the inner loop: stores, deletes or ignores `c` and says whether the line ended. */
    method TakeCharacter(buffer: array<ascii>, offset: nat, c: ascii, noEcho: bool) returns (offset': nat, ended: bool)
      requires offset < buffer.Length
      modifies this`output, buffer
      ensures offset' <= buffer.Length && buffer[..offset'] == Feed(old(buffer[..offset]), c)
      ensures output == old(output) + Reply(old(buffer[..offset]), c, noEcho)
      ensures ended == Ends(c)
    {
      ghost var kept := buffer[..offset];
      buffer[offset] := c;
      assert buffer[..offset] == kept && buffer[..offset + 1] == kept + [c];
      offset', ended := offset, false;
      if !IsControl(c) {
        if !noEcho {
          PutString([c]);
        }
        offset' := offset + 1;
      } else if c == DEL && offset != 0 {
        offset' := offset - 1;
        assert buffer[..offset'] == kept[..|kept| - 1] && buffer[offset'] == kept[|kept| - 1];
        if buffer[offset'] < 0x20 {
          PutString([BACKSPACE, BACKSPACE, SPACE, SPACE, BACKSPACE, BACKSPACE]);
        } else if !noEcho {
          PutString([BACKSPACE, SPACE, BACKSPACE]);
        }
      } else if c == CTRL_C || c == RETURN {
        offset' := offset + 1;
        ended := true;
      } else if c < 0x20 {
        PutString([CARET]);
        PutString([c + 0x40]);
        assert old(output) + [CARET] + [c + 0x40] == old(output) + [CARET, c + 0x40];
        offset' := offset + 1;
      }
      assert output == old(output) + Reply(kept, c, noEcho);
    }

    /** The inner loop: the characters of one chunk, the rest thrown away once the line is full. */
    method TakeChunk(buffer: array<ascii>, offset: nat, chunk: seq<ascii>, noEcho: bool) returns (offset': nat)
      requires offset < buffer.Length && !Full(buffer[..offset], buffer.Length) && Plain(buffer[..offset])
      modifies this`output, buffer
      ensures offset' <= buffer.Length
      ensures buffer[..offset'] == Edit(old(buffer[..offset]), chunk, buffer.Length)
      ensures output == old(output) + Echo(old(buffer[..offset]), chunk, buffer.Length, noEcho)
    {
      ghost var kept, before := buffer[..offset], output;
      offset' := offset;
      assert chunk[0..] == chunk;
      for i := 0 to |chunk|
        invariant 0 <= offset' < buffer.Length && !Full(buffer[..offset'], buffer.Length) && Plain(buffer[..offset'])
        invariant Edit(kept, chunk, buffer.Length) == Edit(buffer[..offset'], chunk[i..], buffer.Length)
        invariant before + Echo(kept, chunk, buffer.Length, noEcho)
               == output + Echo(buffer[..offset'], chunk[i..], buffer.Length, noEcho)
      {
        var ended;
        assert chunk[i..][1..] == chunk[i + 1..];
        EchoStep(output, buffer[..offset'], chunk[i..], buffer.Length, noEcho);
        FeedFills(buffer[..offset'], chunk[i], buffer.Length);
        offset', ended := TakeCharacter(buffer, offset', chunk[i], noEcho);
        if ended || offset' >= buffer.Length {
          return;
        }
      }
    }

    /** GetLine. `used` counts the chunks read: whatever the chunking, the line is the edit of the
        whole input, all but the last chunk left it open, and it fails only for want of input. */
    method GetLine(buffer: array<ascii>, noEcho: bool) returns (success: bool, read: nat, ghost used: nat)
      modifies this, buffer
      ensures read <= buffer.Length && buffer[..read] == Edit([], old(Concat(input)), buffer.Length)
      ensures output == old(output) + Echo([], old(Concat(input)), buffer.Length, noEcho) + [RETURN, NEWLINE]
      ensures success == Full(buffer[..read], buffer.Length)
      ensures success <==> read == buffer.Length || (read > 0 && (buffer[read - 1] == 3 || buffer[read - 1] == 13))
      ensures used <= |old(input)| && input == old(input)[used..]
      ensures forall u | 0 <= u < used :: Unfilled(old(input), u, buffer.Length)
      ensures !success ==> input == []
    {
      ghost var all, before := input, output;
      var offset: nat := 0;
      success, used := true, 0;
      while offset < buffer.Length
        invariant offset <= buffer.Length && 0 <= used <= |all| && input == all[used..]
        invariant !Ended(buffer[..offset])
        invariant SoFar(buffer[..offset], output, before, all, used, buffer.Length, noEcho)
        decreases |input|
      {
        if input == [] {
          success := false;
          break;
        }
        ChunkTaken(buffer[..offset], output, before, all, used, buffer.Length, noEcho);
        var chunk := input[0];
        input := input[1..];
        offset := TakeChunk(buffer, offset, chunk, noEcho);
        used := used + 1;
        if offset != 0 && Ends(buffer[offset - 1]) {
          break;
        }
      }
      read := offset;
      RestIgnored(buffer[..read], output, before, all, used, buffer.Length, noEcho);
      PutString([RETURN, NEWLINE]);
    }
  }

  /** A character fills the line exactly if it ends it or takes the last place. */
  lemma FeedFills(kept: seq<ascii>, c: ascii, capacity: nat)
    requires !Full(kept, capacity) && Plain(kept)
    ensures Full(Feed(kept, c), capacity) <==> Ends(c) || |Feed(kept, c)| >= capacity
    ensures Plain(Feed(kept, c))
  {
  }

  lemma {:induction false} EditPlain(kept: seq<ascii>, input: seq<ascii>, capacity: nat)
    requires Plain(kept)
    ensures Plain(Edit(kept, input, capacity))
    decreases |input|
  {
    if input != [] && !Full(kept, capacity) {
      FeedFills(kept, input[0], capacity);
      EditPlain(Feed(kept, input[0]), input[1..], capacity);
    }
  }

  lemma EchoStep(output: seq<ascii>, kept: seq<ascii>, input: seq<ascii>, capacity: nat, noEcho: bool)
    requires input != [] && !Full(kept, capacity)
    ensures output + Echo(kept, input, capacity, noEcho)
         == output + Reply(kept, input[0], noEcho) + Echo(Feed(kept, input[0]), input[1..], capacity, noEcho)
  {
  }

  // ----- What the terminal shows -----

  /** One row of unbounded width. */
  datatype Row = Row(cells: seq<ascii>, cursor: nat)

  function Type(row: Row, c: ascii): Row {
    if c == BACKSPACE then Row(row.cells, if row.cursor == 0 then 0 else row.cursor - 1)
    else if row.cursor < |row.cells| then Row(row.cells[row.cursor := c], row.cursor + 1)
    else Row(row.cells + [c], row.cursor + 1)
  }

  function Show(row: Row, output: seq<ascii>): Row
    decreases |output|
  {
    if output == [] then row else Show(Type(row, output[0]), output[1..])
  }

  /** The row reads `text`, the cursor stands at its end, and the rest is blank. */
  predicate Reads(row: Row, text: seq<ascii>) {
    && row.cursor == |text| <= |row.cells|
    && row.cells[..row.cursor] == text
    && forall k | row.cursor <= k < |row.cells| :: row.cells[k] == SPACE
  }

  /** How a kept character is meant to look. */
  function Glyph(c: ascii, noEcho: bool): seq<ascii> {
    if Ends(c) || c == DEL then []
    else if c < 0x20 then [CARET, c + 0x40]
    else if noEcho then [] else [c]
  }

  function Render(kept: seq<ascii>, noEcho: bool): seq<ascii> {
    if kept == [] then [] else Render(kept[..|kept| - 1], noEcho) + Glyph(kept[|kept| - 1], noEcho)
  }

  lemma TypeAppends(row: Row, text: seq<ascii>, c: ascii)
    requires Reads(row, text) && c != BACKSPACE
    ensures Reads(Type(row, c), text + [c])
  {
    assert Type(row, c).cells[..|text|] == row.cells[..|text|];
  }

  lemma EraseOne(row: Row, text: seq<ascii>, c: ascii)
    requires Reads(row, text + [c])
    ensures Reads(Show(row, [BACKSPACE, SPACE, BACKSPACE]), text)
  {
    var r1 := Type(row, BACKSPACE);
    var r2 := Type(r1, SPACE);
    assert [BACKSPACE, SPACE, BACKSPACE][1..] == [SPACE, BACKSPACE];
    ShowTwo(r1, SPACE, BACKSPACE);
    assert r2.cells[..|text|] == row.cells[..|text + [c]|][..|text|] == text;
  }

  lemma EraseTwo(row: Row, text: seq<ascii>, c: ascii, d: ascii)
    requires Reads(row, text + [c, d])
    ensures Reads(Show(row, [BACKSPACE, BACKSPACE, SPACE, SPACE, BACKSPACE, BACKSPACE]), text)
  {
    var r2 := Type(Type(row, BACKSPACE), BACKSPACE);
    var r4 := Type(Type(r2, SPACE), SPACE);
    ShowConcat(row, [BACKSPACE, BACKSPACE], [SPACE, SPACE, BACKSPACE, BACKSPACE]);
    ShowConcat(r2, [SPACE, SPACE], [BACKSPACE, BACKSPACE]);
    ShowTwo(row, BACKSPACE, BACKSPACE);
    ShowTwo(r2, SPACE, SPACE);
    ShowTwo(r4, BACKSPACE, BACKSPACE);
    assert [BACKSPACE, BACKSPACE] + [SPACE, SPACE, BACKSPACE, BACKSPACE]
        == [BACKSPACE, BACKSPACE, SPACE, SPACE, BACKSPACE, BACKSPACE];
    assert [SPACE, SPACE] + [BACKSPACE, BACKSPACE] == [SPACE, SPACE, BACKSPACE, BACKSPACE];
    assert r4.cells[..|text|] == row.cells[..|text + [c, d]|][..|text|] == text;
  }

  lemma ShowTwo(row: Row, c: ascii, d: ascii)
    ensures Show(row, [c, d]) == Type(Type(row, c), d)
  {
    assert [c, d][1..] == [d] && [d][1..] == [];
    assert Show(Type(row, c), [d]) == Show(Type(Type(row, c), d), []);
  }

  lemma {:induction false} ShowConcat(row: Row, a: seq<ascii>, b: seq<ascii>)
    ensures Show(row, a + b) == Show(Show(row, a), b)
    decreases |a|
  {
    if a == [] {
      assert a + b == b;
    } else {
      assert (a + b)[1..] == a[1..] + b;
      ShowConcat(Type(row, a[0]), a[1..], b);
    }
  }

  /** One character: the row read the line after the prompt, and still does. */
  lemma ReplyShows(row: Row, prompt: seq<ascii>, kept: seq<ascii>, c: ascii, noEcho: bool)
    requires Reads(row, prompt + Render(kept, noEcho))
    requires kept != [] ==> !Ends(kept[|kept| - 1]) && kept[|kept| - 1] != DEL
    ensures Reads(Show(row, Reply(kept, c, noEcho)), prompt + Render(Feed(kept, c), noEcho))
  {
    var text := prompt + Render(kept, noEcho);
    if c == DEL {
      if kept != [] {
        var d, less := kept[|kept| - 1], prompt + Render(kept[..|kept| - 1], noEcho);
        assert text == less + Glyph(d, noEcho);
        if d < 0x20 {
          EraseTwo(row, less, CARET, d + 0x40);
        } else if !noEcho {
          EraseOne(row, less, d);
        }
      }
    } else {
      FeedShows(row, prompt, kept, c, noEcho);
    }
  }

  lemma FeedShows(row: Row, prompt: seq<ascii>, kept: seq<ascii>, c: ascii, noEcho: bool)
    requires Reads(row, prompt + Render(kept, noEcho)) && c != DEL
    ensures Reads(Show(row, Reply(kept, c, noEcho)), prompt + Render(Feed(kept, c), noEcho))
  {
    var text := prompt + Render(kept, noEcho);
    assert (kept + [c])[..|kept|] == kept;
    assert prompt + Render(kept + [c], noEcho) == text + Glyph(c, noEcho);
    assert Reply(kept, c, noEcho) == Glyph(c, noEcho);
    if c < 0x20 && !Ends(c) {
      TypeAppends(row, text, CARET);
      TypeAppends(Type(row, CARET), text + [CARET], c + 0x40);
      ShowTwo(row, CARET, c + 0x40);
      assert text + [CARET] + [c + 0x40] == text + [CARET, c + 0x40];
    } else if !Ends(c) && !noEcho {
      TypeAppends(row, text, c);
    }
  }

  /** For every input, however much of it has arrived: replaying what was echoed leaves the row
      reading the prompt and the rendering of exactly the characters kept, the cursor at its end
      and nothing but blanks behind. */
  lemma {:induction false} EchoShowsLine(row: Row, prompt: seq<ascii>, kept: seq<ascii>, input: seq<ascii>,
                                         capacity: nat, noEcho: bool)
    requires Reads(row, prompt + Render(kept, noEcho)) && Plain(kept)
    ensures Reads(Show(row, Echo(kept, input, capacity, noEcho)), prompt + Render(Edit(kept, input, capacity), noEcho))
    decreases |input|
  {
    if input != [] && !Full(kept, capacity) {
      var c := input[0];
      FeedFills(kept, c, capacity);
      var row' := Show(row, Reply(kept, c, noEcho));
      ReplyShows(row, prompt, kept, c, noEcho);
      EchoShowsLine(row', prompt, Feed(kept, c), input[1..], capacity, noEcho);
      ShowConcat(row, Reply(kept, c, noEcho), Echo(Feed(kept, c), input[1..], capacity, noEcho));
    }
  }

  // ----- By character code -----

  /** 127 takes the last character away, 3 and 13 are kept and end the line, everything else is
      kept; a full line takes no more. */
  lemma EditByCode(kept: seq<ascii>, c: ascii, rest: seq<ascii>, capacity: nat)
    ensures var line := Edit(kept, [c] + rest, capacity);
            if |kept| >= capacity || (kept != [] && (kept[|kept| - 1] == 3 || kept[|kept| - 1] == 13)) then line == kept
            else if c == 127 then line == Edit(if kept == [] then [] else kept[..|kept| - 1], rest, capacity)
            else if c == 3 || c == 13 then line == kept + [c]
            else line == Edit(kept + [c], rest, capacity)
  {
    assert ([c] + rest)[1..] == rest;
  }

  /** Codes below 32 show as a caret and the letter 64 above, save 3 and 13, which do not show; the
      others show as themselves or, without echo, not at all. */
  lemma GlyphByCode(c: ascii, noEcho: bool)
    ensures c == 3 || c == 13 ==> Glyph(c, noEcho) == []
    ensures c < 32 && c != 3 && c != 13 ==> Glyph(c, noEcho) == [94, c + 64]
    ensures 32 <= c < 127 ==> Glyph(c, noEcho) == if noEcho then [] else [c]
  {
  }

  // ----- Deletions undone -----

  /** A character and then its deletion leave no trace on the line, unless the character ended it
      or took the last place. */
  lemma DeletedLeavesNoTrace(kept: seq<ascii>, c: ascii, rest: seq<ascii>, capacity: nat)
    requires c != DEL && !Ends(c) && !Full(kept, capacity) && |kept| + 1 < capacity
    ensures Edit(kept, [c, DEL] + rest, capacity) == Edit(kept, rest, capacity)
  {
    assert ([c, DEL] + rest)[1..] == [DEL] + rest && ([DEL] + rest)[1..] == rest;
    assert (kept + [c])[..|kept|] == kept;
  }
}
