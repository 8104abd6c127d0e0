/** The bootstrap from binary to running program: the keystrokes of the injector, heard by
    the host's keyboard and obeyed by DOS and DEBUG, put the binary at 0x100 and jump to
    it. */
module Bootstrap {
  import opened Wrappers
  import opened Scancode
  import opened Debug
  import opened Classifier
  import opened Injector

  // ------------------------------------------------------------ keystrokes

  ghost predicate AllTypeable(text: string) {
    forall i :: 0 <= i < |text| ==> Typeable(text[i])
  }

  /** What a host of each kind hears of what the injector sends it. */
  function Heard(kind: MachineClass, text: string): string {
    if kind == XtClass then HeardSet1(Strokes1(text)) else HeardSet2(Strokes2(text), false)
  }

  lemma HeardStroke2(c: char, rest: seq<u8>)
    requires AsciiToSet2(c) != 0
    ensures HeardSet2(Stroke2(c) + rest, false) == [c] + HeardSet2(rest, false)
  {
    Set2Exact(c);
    hide AsciiToSet2, Set2Key;
    var code := AsciiToSet2(c);
    var codes := Stroke2(c) + rest;
    assert codes[1..] == [BREAK_PREFIX, code] + rest;
    assert codes[1..][1..] == [code] + rest;
    assert codes[1..][1..][1..] == rest;
    assert HeardSet2(codes, false) == [c] + HeardSet2(codes[1..], false);
    assert HeardSet2(codes[1..], false) == HeardSet2(codes[1..][1..], true);
    assert HeardSet2(codes[1..][1..], true) == HeardSet2(rest, false);
  }

  lemma HeardStroke1(c: char, rest: seq<u8>)
    requires AsciiToSet1(c) != 0
    ensures HeardSet1(Stroke1(c) + rest) == [c] + HeardSet1(rest)
  {
    Set1Exact(c);
    hide AsciiToSet1, Set1Key;
    var codes := Stroke1(c) + rest;
    assert codes[1..] == [WithTopBit(AsciiToSet1(c))] + rest;
    assert codes[1..][1..] == rest;
  }

  lemma StrokesFirst(text: string)
    requires text != ""
    ensures Strokes2(text) == Stroke2(text[0]) + Strokes2(text[1..])
    ensures Strokes1(text) == Stroke1(text[0]) + Strokes1(text[1..])
  {
    hide Stroke1, Stroke2;
    StrokesConcat([text[0]], text[1..]);
    assert [text[0]] + text[1..] == text && [text[0]][..0] == "";
    assert Strokes2([text[0]]) == [] + Stroke2(text[0]) && Strokes1([text[0]]) == [] + Stroke1(text[0]);
  }

  /** No character is skipped, doubled or changed on the way. */
  lemma {:induction false} HeardIsTyped(kind: MachineClass, text: string)
    requires AllTypeable(text)
    ensures Heard(kind, text) == text
    decreases |text|
  {
    hide AsciiToSet1, AsciiToSet2, Stroke1, Stroke2;
    if text != "" {
      var c, rest := text[0], text[1..];
      assert Typeable(c);
      HeardIsTyped(kind, rest);
      StrokesFirst(text);
      HeardStroke1(c, Strokes1(rest));
      HeardStroke2(c, Strokes2(rest));
      assert [c] + rest == text;
    }
  }

  lemma Stroke2Releases(c: char, rest: seq<u8>)
    requires AsciiToSet2(c) != 0
    ensures DownSet2(Stroke2(c) + rest, {}, false) == DownSet2(rest, {}, false)
  {
    Set2Exact(c);
    hide AsciiToSet2, Set2Key;
    var x := AsciiToSet2(c);
    var codes := Stroke2(c) + rest;
    assert codes[1..] == [0xF0, x] + rest && codes[1..][1..] == [x] + rest && codes[1..][1..][1..] == rest;
    assert DownSet2(codes, {}, false) == DownSet2(codes[1..], {} + {x}, false);
    assert DownSet2(codes[1..], {} + {x}, false) == DownSet2(codes[1..][1..], {} + {x}, true);
    assert DownSet2(codes[1..][1..], {} + {x}, true) == DownSet2(rest, {} + {x} - {x}, false);
    assert {} + {x} - {x} == {};
  }

  lemma Stroke1Releases(c: char, rest: seq<u8>)
    requires AsciiToSet1(c) != 0
    ensures DownSet1(Stroke1(c) + rest, {}) == DownSet1(rest, {})
  {
    Set1Exact(c);
    hide AsciiToSet1, Set1Key;
    var x := AsciiToSet1(c);
    var codes := Stroke1(c) + rest;
    assert codes[1..] == [WithTopBit(x)] + rest && codes[1..][1..] == rest;
    assert DownSet1(codes, {}) == DownSet1(codes[1..], {} + {x});
    assert DownSet1(codes[1..], {} + {x}) == DownSet1(rest, {} + {x} - {x});
    assert {} + {x} - {x} == {};
  }

  /** Every key that is pressed is let go: none is down once the text has been typed. */
  lemma {:induction false} NothingHeld(text: string)
    requires AllTypeable(text)
    ensures DownSet2(Strokes2(text), {}, false) == {} && DownSet1(Strokes1(text), {}) == {}
    decreases |text|
  {
    hide AsciiToSet1, AsciiToSet2, Stroke1, Stroke2;
    if text != "" {
      assert Typeable(text[0]);
      NothingHeld(text[1..]);
      StrokesFirst(text);
      Stroke1Releases(text[0], Strokes1(text[1..]));
      Stroke2Releases(text[0], Strokes2(text[1..]));
    }
  }

  // ------------------------------------------------------------ characters of the script

  predicate Plain(text: string) {
    forall i :: 0 <= i < |text| ==> Typeable(text[i]) && text[i] != ' ' && text[i] != '\r'
  }

  lemma DigitPlain(d: nat)
    requires d < 16
    ensures Typeable(HexDigit(d)) && HexDigit(d) != ' ' && HexDigit(d) != '\r'
  {
  }

  lemma {:induction false} HexPlain(n: nat)
    ensures Plain(Hex(n))
  {
    DigitPlain(n % 16);
    hide HexDigit, Typeable;
    if n >= 16 {
      HexPlain(n / 16);
    }
  }

  lemma Hex2Plain(n: u8)
    ensures Plain(Hex2(n))
  {
    DigitPlain(n / 16);
    DigitPlain(n % 16);
    hide HexDigit, Typeable;
  }

  /** Characters of a line: typeable, and not the return key. */
  ghost predicate LineText(text: string) {
    forall i :: 0 <= i < |text| ==> Typeable(text[i]) && text[i] != '\r'
  }

  lemma LiteralsTypeable()
    ensures LineText("debug") && LineText("e ") && LineText("g ") && LineText(" ") && Typeable('\r')
  {
  }

  lemma LineTextConcat(a: string, b: string)
    requires LineText(a) && (LineText(b) || Plain(b))
    ensures LineText(a + b)
  {
    hide Typeable;
  }

  lemma {:induction false} HexBytesText(chunk: seq<u8>)
    ensures LineText(HexBytes(chunk))
    decreases |chunk|
  {
    if chunk != [] {
      var n := |chunk| - 1;
      HexBytesText(chunk[..n]);
      LiteralsTypeable();
      Hex2Plain(chunk[n]);
      hide LineText, Plain, Hex2;
      LineTextConcat(" ", Hex2(chunk[n]));
      LineTextConcat(HexBytes(chunk[..n]), " " + Hex2(chunk[n]));
    }
  }

  lemma EnterLineText(addr: u16, chunk: seq<u8>)
    ensures LineText(EnterLine(addr, chunk))
  {
    LiteralsTypeable();
    HexPlain(addr);
    HexBytesText(chunk);
    LineTextConcat("e ", Hex(addr));
    LineTextConcat("e " + Hex(addr), HexBytes(chunk));
    hide LineText, Plain, Hex, HexBytes;
  }

  lemma GoLineText()
    ensures LineText(GoLine()) && |GoLine()| <= 6
  {
    LiteralsTypeable();
    HexPlain(STAGE0_ORIGIN);
    HexShort(STAGE0_ORIGIN);
    hide LineText, Plain, Hex;
    LineTextConcat("g ", Hex(STAGE0_ORIGIN));
  }

  lemma EnteredTypeable(line: string, rest: string)
    requires LineText(line) && AllTypeable(rest)
    ensures AllTypeable(Entered(line) + rest)
  {
    LiteralsTypeable();
    hide Typeable;
  }

  lemma {:induction false} LinesTypeable(addr: u16, bin: seq<u8>, rest: string)
    requires AllTypeable(rest)
    ensures AllTypeable(EnterLines(addr, bin) + rest)
    decreases |bin|
  {
    hide EnterLine, AllTypeable, LineText, Entered;
    if bin == [] {
      assert "" + rest == rest;
    } else {
      var n := Min(E_CHUNK, |bin|);
      var line, more := EnterLine(addr, bin[..n]), EnterLines(NextAddr(addr, n), bin[n..]);
      LinesTypeable(NextAddr(addr, n), bin[n..], rest);
      EnterLineText(addr, bin[..n]);
      EnteredTypeable(line, more + rest);
      assert (Entered(line) + more) + rest == Entered(line) + (more + rest);
    }
  }

  lemma ScriptTypeable(bin: seq<u8>)
    ensures AllTypeable(Script(bin))
  {
    GoLineText();
    LiteralsTypeable();
    NothingTypeable();
    hide AllTypeable, LineText, Entered, EnterLines, GoLine, Typeable;
    EnteredTypeable(GoLine(), "");
    assert Entered(GoLine()) + "" == Entered(GoLine());
    LinesTypeable(STAGE0_ORIGIN, bin, Entered(GoLine()));
    EnteredTypeable(LAUNCH, EnterLines(STAGE0_ORIGIN, bin) + Entered(GoLine()));
  }

  lemma NothingTypeable()
    ensures AllTypeable("")
  {
  }

  // ------------------------------------------------------------ what a line does

  function HexWords(chunk: seq<u8>): (ws: seq<string>)
    ensures |ws| == |chunk|
  {
    if chunk == [] then [] else [Hex2(chunk[0])] + HexWords(chunk[1..])
  }

  lemma Regroup(a: string, b: string, c: string)
    ensures (a + b) + c == a + (b + c)
  {
  }

  lemma HexBytesSnoc(chunk: seq<u8>, b: u8)
    ensures HexBytes(chunk + [b]) == HexBytes(chunk) + (" " + Hex2(b))
  {
    hide Hex2;
    assert (chunk + [b])[..|chunk|] == chunk;
  }

  lemma NoHexBytes()
    ensures HexBytes([]) == "" && HexWords([]) == []
  {
  }

  lemma {:induction false} HexBytesFirst(chunk: seq<u8>)
    requires chunk != []
    ensures HexBytes(chunk) == (" " + Hex2(chunk[0])) + HexBytes(chunk[1..])
    decreases |chunk|
  {
    hide *;
    var n := |chunk| - 1;
    var init, last := chunk[..n], chunk[n];
    assert chunk == init + [last];
    HexBytesSnoc(init, last);
    NoHexBytes();
    if n == 0 {
      assert init == [] && chunk[1..] == [];
      Regroup("", " " + Hex2(last), "");
    } else {
      HexBytesFirst(init);
      assert chunk[1..] == init[1..] + [last];
      HexBytesSnoc(init[1..], last);
      Regroup(" " + Hex2(init[0]), HexBytes(init[1..]), " " + Hex2(last));
    }
  }

  lemma PlainHasNoSpace(word: string)
    requires Plain(word)
    ensures ' ' !in word && '\r' !in word
  {
    hide Typeable;
  }

  lemma HexWordsFirst(chunk: seq<u8>)
    requires chunk != []
    ensures HexWords(chunk) == [Hex2(chunk[0])] + HexWords(chunk[1..])
  {
    hide Hex2;
  }

  lemma {:induction false} WordsOfBytes(word: string, chunk: seq<u8>)
    requires ' ' !in word
    ensures Words(word + HexBytes(chunk)) == [word] + HexWords(chunk)
    decreases |chunk|
  {
    hide *;
    NoHexBytes();
    if chunk == [] {
      OneWord(word);
      assert word + "" == word && [word] + [] == [word];
    } else {
      var next, rest := Hex2(chunk[0]), chunk[1..];
      HexBytesFirst(chunk);
      HexWordsFirst(chunk);
      Hex2Plain(chunk[0]);
      PlainHasNoSpace(next);
      WordsOfBytes(next, rest);
      WordsSplit(word, next + HexBytes(rest));
      SpaceBetween(word, next, HexBytes(rest));
    }
  }

  lemma SpaceBetween(a: string, b: string, c: string)
    ensures a + ((" " + b) + c) == a + " " + (b + c)
  {
  }

  lemma {:induction false} BytesOfWords(chunk: seq<u8>)
    ensures Bytes(HexWords(chunk)) == Some(chunk)
    decreases |chunk|
  {
    hide *;
    NoHexBytes();
    BytesStep([]);
    if chunk != [] {
      var first, rest := Hex2(chunk[0]), HexWords(chunk[1..]);
      Hex2Reads(chunk[0]);
      BytesOfWords(chunk[1..]);
      HexWordsFirst(chunk);
      BytesStep(HexWords(chunk));
      assert ([first] + rest)[1..] == rest;
      assert [chunk[0]] + chunk[1..] == chunk;
    }
  }

  lemma BytesStep(ws: seq<string>)
    ensures ws == [] ==> Bytes(ws) == Some([])
    ensures ws != [] ==>
              var n, rest := ParseHex(ws[0]), Bytes(ws[1..]);
              Bytes(ws) == (if n.None? || n.value >= 256 || rest.None? then None else Some([n.value] + rest.value))
  {
    hide ParseHex;
  }

  /** The command letter is the first word. */
  lemma LetterFirst(tail: string)
    ensures Words("e " + tail) == ["e"] + Words(tail)
    ensures Words("g " + tail) == ["g"] + Words(tail)
  {
    WordsSplit("e", tail);
    WordsSplit("g", tail);
    hide Words;
    assert "e " == "e" + " " && "g " == "g" + " ";
  }

  lemma EnterLineWords(addr: u16, chunk: seq<u8>)
    ensures Words(EnterLine(addr, chunk)) == ["e"] + ([Hex(addr)] + HexWords(chunk))
  {
    hide Hex, Words, HexWords, HexBytes, Plain;
    HexPlain(addr);
    PlainHasNoSpace(Hex(addr));
    WordsOfBytes(Hex(addr), chunk);
    Regroup("e ", Hex(addr), HexBytes(chunk));
    LetterFirst(Hex(addr) + HexBytes(chunk));
  }

  /** An `e` line stores exactly its chunk at its address. */
  lemma EnterExecutes(mem: Memory, addr: u16, chunk: seq<u8>)
    ensures Execute(Debugging(mem), EnterLine(addr, chunk)) == Enter(mem, addr, chunk)
  {
    hide Hex, Hex2, ParseHex, Bytes, Words, EnterLine, Enter, HexWords;
    EnterLineWords(addr, chunk);
    HexReads(addr);
    BytesOfWords(chunk);
    var ws := Words(EnterLine(addr, chunk));
    assert ws[0] == "e" && ws[1] == Hex(addr) && ws[2..] == HexWords(chunk);
  }

  lemma GoLineWords()
    ensures Words(GoLine()) == ["g"] + [Hex(STAGE0_ORIGIN)]
  {
    var at := Hex(STAGE0_ORIGIN);
    HexPlain(STAGE0_ORIGIN);
    PlainHasNoSpace(at);
    LetterFirst(at);
    OneWord(at);
    hide Hex, Words, Plain;
  }

  lemma GoExecutes(mem: Memory)
    ensures Execute(Debugging(mem), GoLine()) == Running(mem, STAGE0_ORIGIN)
  {
    hide Hex, ParseHex, Bytes, Words, GoLine, Enter;
    GoLineWords();
    HexReads(STAGE0_ORIGIN);
    var ws := Words(GoLine());
    assert ws[0] == "g" && ws[0] != "e";
  }

  // ------------------------------------------------------------ how many lines

  function Returns(text: string): nat {
    if text == "" then 0 else (if text[0] == '\r' then 1 else 0) + Returns(text[1..])
  }

  lemma {:induction false} ReturnsConcat(a: string, b: string)
    ensures Returns(a + b) == Returns(a) + Returns(b)
  {
    if a == "" {
      assert a + b == b;
    } else {
      ReturnsConcat(a[1..], b);
      assert (a + b)[1..] == a[1..] + b;
    }
  }

  lemma {:induction false} NoReturns(text: string)
    requires LineText(text)
    ensures Returns(text) == 0
  {
    hide Typeable;
    if text != "" {
      NoReturns(text[1..]);
    }
  }

  lemma OneReturn(line: string)
    requires LineText(line)
    ensures Returns(Entered(line)) == 1
  {
    NoReturns(line);
    ReturnsConcat(line, "\r");
    assert "\r"[1..] == "";
    hide LineText;
  }

  lemma {:induction false} LinesReturns(addr: u16, bin: seq<u8>)
    ensures Returns(EnterLines(addr, bin)) == (|bin| + 15) / 16
    decreases |bin|
  {
    hide EnterLine, LineText, Entered;
    if bin != [] {
      var n := Min(E_CHUNK, |bin|);
      EnterLineText(addr, bin[..n]);
      OneReturn(EnterLine(addr, bin[..n]));
      LinesReturns(NextAddr(addr, n), bin[n..]);
      ReturnsConcat(Entered(EnterLine(addr, bin[..n])), EnterLines(NextAddr(addr, n), bin[n..]));
    }
  }

  /** The script is the launch, one line for every sixteen bytes begun, and the jump. */
  lemma ScriptLength(bin: seq<u8>)
    ensures Returns(Script(bin)) == 2 + (|bin| + 15) / 16
  {
    hide EnterLines, Entered, GoLine, LineText, Returns;
    GoLineText();
    LiteralsTypeable();
    OneReturn(LAUNCH);
    OneReturn(GoLine());
    LinesReturns(STAGE0_ORIGIN, bin);
    ReturnsConcat(EnterLines(STAGE0_ORIGIN, bin), Entered(GoLine()));
    ReturnsConcat(Entered(LAUNCH), EnterLines(STAGE0_ORIGIN, bin) + Entered(GoLine()));
  }

  // ------------------------------------------------------------ the whole script

  /** The memory with `bin` stored at `at`. */
  function Stored(mem: Memory, at: nat, bin: seq<u8>): Memory
    requires at + |bin| <= 0x1_0000
  {
    mem[..at] + bin + mem[at + |bin|..]
  }

  lemma StoredTwice(mem: Memory, at: nat, a: seq<u8>, b: seq<u8>)
    requires at + |a| + |b| <= 0x1_0000
    ensures Stored(Stored(mem, at, a), at + |a|, b) == Stored(mem, at, a + b)
  {
  }

  lemma LineObeyed(m: Machine, line: string, rest: string)
    requires LineText(line) && |line| <= LINE_LIMIT
    ensures Typed(m, "", Entered(line) + rest) == Typed(Execute(m, line), "", rest)
  {
    hide Typeable, Execute, Typed;
    TypedLine(m, "", line, rest);
    assert "" + line == line;
  }

  /** The first line of what is left, and the rest. */
  lemma FirstLine(addr: nat, bin: seq<u8>) returns (n: nat)
    requires addr + |bin| <= 0x1_0000 && bin != []
    ensures addr < 0x1_0000 && 0 < n <= |bin| && n <= E_CHUNK && bin[..n] + bin[n..] == bin
    ensures EnterLines(addr % 0x1_0000, bin)
         == Entered(EnterLine(addr, bin[..n])) + EnterLines((addr + n) % 0x1_0000, bin[n..])
  {
    hide EnterLine, Entered;
    n := Min(E_CHUNK, |bin|);
  }

  lemma ChunkStored(mem: Memory, addr: u16, chunk: seq<u8>, rest: string)
    requires addr + |chunk| <= 0x1_0000 && |chunk| <= E_CHUNK
    ensures Typed(Debugging(mem), "", Entered(EnterLine(addr, chunk)) + rest)
         == Typed(Debugging(Stored(mem, addr, chunk)), "", rest)
  {
    hide LineText, EnterLine, Execute, Typed, Entered;
    EnterLineText(addr, chunk);
    LineFits(addr, chunk);
    EnterExecutes(mem, addr, chunk);
    LineObeyed(Debugging(mem), EnterLine(addr, chunk), rest);
  }

  lemma {:induction false} LinesObeyed(mem: Memory, addr: nat, bin: seq<u8>, rest: string)
    requires addr + |bin| <= 0x1_0000
    ensures Typed(Debugging(mem), "", EnterLines(addr % 0x1_0000, bin) + rest)
         == Typed(Debugging(Stored(mem, addr, bin)), "", rest)
    decreases |bin|
  {
    hide LineText, EnterLine, Execute, Typed, Entered, NextAddr, Stored;
    if bin == [] {
      NothingStored(mem, addr);
      assert "" + rest == rest;
    } else {
      hide EnterLines;
      var n := FirstLine(addr, bin);
      var chunk, after := bin[..n], bin[n..];
      var line, more := Entered(EnterLine(addr, chunk)), EnterLines((addr + n) % 0x1_0000, after);
      LinesObeyed(Stored(mem, addr, chunk), addr + n, after, rest);
      StoredTwice(mem, addr, chunk, after);
      Regroup(line, more, rest);
      ChunkStored(mem, addr, chunk, more + rest);
    }
  }

  lemma NothingStored(mem: Memory, at: nat)
    requires at <= 0x1_0000
    ensures Stored(mem, at, []) == mem
  {
  }

  lemma LaunchExecutes(mem: Memory)
    ensures Execute(Dos(mem), LAUNCH) == Debugging(mem) && LineText(LAUNCH) && |LAUNCH| <= LINE_LIMIT
  {
    hide Words;
    LiteralsTypeable();
    hide LineText;
  }

  lemma NothingTyped(m: Machine)
    ensures Typed(m, "", "") == (m, "")
  {
  }

  /** For every host class, every prior memory and every binary that fits above 0x100: the
      host hears the script character for character and ends up running at 0x100 with
      exactly the binary there and nothing else in memory changed. */
  lemma BootstrapRuns(kind: MachineClass, bin: seq<u8>, mem: Memory)
    requires 0x100 + |bin| <= 0x1_0000
    ensures Heard(kind, Script(bin)) == Script(bin)
    ensures DownSet2(Strokes2(Script(bin)), {}, false) == {} && DownSet1(Strokes1(Script(bin)), {}) == {}
    ensures Typed(Dos(mem), "", Heard(kind, Script(bin)))
         == (Running(mem[..0x100] + bin + mem[0x100 + |bin|..], 0x100), "")
  {
    hide Typed, Execute, EnterLines, Entered, GoLine, Heard, AllTypeable, LineText;
    ScriptTypeable(bin);
    HeardIsTyped(kind, Script(bin));
    NothingHeld(Script(bin));
    var go := Entered(GoLine());
    var lines := EnterLines(STAGE0_ORIGIN, bin);
    var loaded := Stored(mem, STAGE0_ORIGIN, bin);
    LaunchExecutes(mem);
    LineObeyed(Dos(mem), LAUNCH, lines + go);
    LinesObeyed(mem, STAGE0_ORIGIN, bin, go);
    GoLineText();
    LineObeyed(Debugging(loaded), GoLine(), "");
    assert go + "" == go;
    GoExecutes(loaded);
    NothingTyped(Running(loaded, STAGE0_ORIGIN));
  }
}
