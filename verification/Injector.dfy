/** The bootstrap injector (firmware/src/ps2/injector.rs:146-233): a binary is compiled into
    a DEBUG script and typed as scancodes.  The script is correct: the host that receives the
    keystrokes ends up running exactly the binary. */
module Injector {
  import opened Wrappers
  import opened Scancode
  import opened Debug
  import opened Classifier

  const E_CHUNK: nat := 16
  const STAGE0_ORIGIN: nat := 0x0100

  /** Append to a string of fixed capacity; what does not fit is refused. */
  function Push(s: string, more: string, capacity: nat): string {
    if |s| + |more| <= capacity then s + more else s
  }

  function Strokes2(text: string): seq<u8> {
    if text == "" then [] else Strokes2(text[..|text| - 1]) + Stroke2(text[|text| - 1])
  }

  function Strokes1(text: string): seq<u8> {
    if text == "" then [] else Strokes1(text[..|text| - 1]) + Stroke1(text[|text| - 1])
  }

  // ------------------------------------------------------------ the script

  function HexBytes(chunk: seq<u8>): string {
    if chunk == [] then "" else HexBytes(chunk[..|chunk| - 1]) + (" " + Hex2(chunk[|chunk| - 1]))
  }

  /** An `e` command without its return key. */
  function EnterLine(addr: u16, chunk: seq<u8>): string {
    "e " + Hex(addr) + HexBytes(chunk)
  }

  function Min(a: nat, b: nat): nat { if a < b then a else b }

  /** `addr += n as u16`. */
  function NextAddr(addr: u16, n: nat): u16 { (addr + n) % 0x1_0000 }

  function EnterLines(addr: u16, bin: seq<u8>): string
    decreases |bin|
  {
    if bin == [] then ""
    else
      var n := Min(E_CHUNK, |bin|);
      Entered(EnterLine(addr, bin[..n])) + EnterLines(NextAddr(addr, n), bin[n..])
  }

  const LAUNCH := "debug"

  /** The `g` command without its return key. */
  function GoLine(): string { "g " + Hex(STAGE0_ORIGIN) }

  /** A line and the return key. */
  function Entered(line: string): string { line + "\r" }

  function Script(bin: seq<u8>): string {
    Entered(LAUNCH) + (EnterLines(STAGE0_ORIGIN, bin) + Entered(GoLine()))
  }

  lemma {:induction false} HexBytesLength(chunk: seq<u8>)
    ensures |HexBytes(chunk)| == 3 * |chunk|
    decreases |chunk|
  {
    if chunk != [] {
      HexBytesLength(chunk[..|chunk| - 1]);
    }
  }

  /** No line fills the 64-byte buffer it is built in. */
  lemma LineFits(addr: u16, chunk: seq<u8>)
    requires |chunk| <= E_CHUNK
    ensures |EnterLine(addr, chunk)| <= 54
  {
    HexShort(addr);
    HexBytesLength(chunk);
    hide Hex, HexBytes;
  }

  // ------------------------------------------------------------ the object

  class BootstrapInjector {
    /** Bytes sent with AT framing and with XT framing. */
    var atSent: seq<u8>
    var xtSent: seq<u8>

    constructor ()
      ensures atSent == [] && xtSent == []
    {
      atSent, xtSent := [], [];
    }

    method TypeScancodeAt(code: u8)
      modifies `atSent
      ensures atSent == old(atSent) + [code, BREAK_PREFIX, code]
    {
      atSent := atSent + [code];
      atSent := atSent + [0xF0];
      atSent := atSent + [code];
    }

    method TypeScancodeXt(code: u8)
      modifies `xtSent
      ensures xtSent == old(xtSent) + [code, WithTopBit(code)]
    {
      xtSent := xtSent + [code];
      xtSent := xtSent + [WithTopBit(code)];
    }

    method TypeAsciiAt(ascii: string)
      modifies `atSent
      ensures atSent == old(atSent) + Strokes2(ascii)
    {
      var i := 0;
      while i < |ascii|
        invariant 0 <= i <= |ascii| && atSent == old(atSent) + Strokes2(ascii[..i])
      {
        hide AsciiToSet2;
        assert ascii[..i + 1][..i] == ascii[..i];
        var code := AsciiToSet2(ascii[i]);
        i := i + 1;
        if code == 0 {
          continue;
        }
        TypeScancodeAt(code);
      }
      assert ascii[..i] == ascii;
    }

    method TypeAsciiXt(ascii: string)
      modifies `xtSent
      ensures xtSent == old(xtSent) + Strokes1(ascii)
    {
      var i := 0;
      while i < |ascii|
        invariant 0 <= i <= |ascii| && xtSent == old(xtSent) + Strokes1(ascii[..i])
      {
        hide AsciiToSet1, WithTopBit;
        assert ascii[..i + 1][..i] == ascii[..i];
        var code := AsciiToSet1(ascii[i]);
        i := i + 1;
        if code == 0 {
          continue;
        }
        TypeScancodeXt(code);
      }
      assert ascii[..i] == ascii;
    }

    method TypeAscii(kind: MachineClass, ascii: string)
      modifies this
      ensures kind == XtClass ==> xtSent == old(xtSent) + Strokes1(ascii) && atSent == old(atSent)
      ensures kind != XtClass ==> atSent == old(atSent) + Strokes2(ascii) && xtSent == old(xtSent)
    {
      if kind == XtClass {
        TypeAsciiXt(ascii);
      } else {
        TypeAsciiAt(ascii);
      }
    }

    /** Since the wires carried `at0` and `xt0`, exactly `text` was typed. */
    ghost predicate HasTyped(kind: MachineClass, at0: seq<u8>, xt0: seq<u8>, text: string)
      reads this
    {
      if kind == XtClass then xtSent == xt0 + Strokes1(text) && atSent == at0
      else atSent == at0 + Strokes2(text) && xtSent == xt0
    }

    method TypeMore(kind: MachineClass, ascii: string, ghost at0: seq<u8>, ghost xt0: seq<u8>, ghost text: string)
      requires HasTyped(kind, at0, xt0, text)
      modifies this
      ensures HasTyped(kind, at0, xt0, text + ascii)
    {
      hide Strokes1, Strokes2;
      StrokesConcat(text, ascii);
      TypeAscii(kind, ascii);
    }

    /** One `e` command, built in a 64-byte string. */
    method BuildLine(addr: u16, chunk: seq<u8>) returns (cmd: string)
      requires |chunk| <= E_CHUNK
      ensures cmd == Entered(EnterLine(addr, chunk))
    {
      hide Hex, Hex2;
      cmd := Push("", "e ", 64);
      HexShort(addr);
      cmd := Push(cmd, Hex(addr), 64);
      var i := 0;
      while i < |chunk|
        invariant 0 <= i <= |chunk| && cmd == "e " + Hex(addr) + HexBytes(chunk[..i])
      {
        HexBytesLength(chunk[..i]);
        assert chunk[..i + 1][..i] == chunk[..i];
        cmd := Push(cmd, " " + Hex2(chunk[i]), 64);
        i := i + 1;
      }
      assert chunk[..i] == chunk;
      HexBytesLength(chunk);
      cmd := Push(cmd, "\r", 64);
    }

    /** The `g` command, built in a 16-byte string. */
    method BuildGo() returns (go: string)
      ensures go == Entered(GoLine())
    {
      hide Hex;
      HexShort(STAGE0_ORIGIN);
      go := Push("", "g ", 16);
      go := Push(go, Hex(STAGE0_ORIGIN), 16);
      go := Push(go, "\r", 16);
    }

    /** One chunk as an `e` command. */
    method TypeChunk(kind: MachineClass, addr: u16, bin: seq<u8>, pos: nat, n: nat,
                     ghost at0: seq<u8>, ghost xt0: seq<u8>, ghost text: string)
      returns (ghost typed: string)
      requires pos < |bin| && n == Min(E_CHUNK, |bin| - pos) && HasTyped(kind, at0, xt0, text)
      modifies this
      ensures HasTyped(kind, at0, xt0, typed) && 0 < n && pos + n <= |bin|
      ensures typed + EnterLines(NextAddr(addr, n), bin[pos + n..]) == text + EnterLines(addr, bin[pos..])
    {
      hide *;
      NextLine(addr, bin, pos, n);
      var cmd := BuildLine(addr, bin[pos..pos + n]);
      TypeMore(kind, cmd, at0, xt0, text);
      typed := text + cmd;
    }

    /** The `e` commands, one chunk a line. */
    method TypeLines(kind: MachineClass, bin: seq<u8>, ghost at0: seq<u8>, ghost xt0: seq<u8>, ghost text: string)
      requires HasTyped(kind, at0, xt0, text)
      modifies this
      ensures HasTyped(kind, at0, xt0, text + EnterLines(STAGE0_ORIGIN, bin))
    {
      var addr: u16 := STAGE0_ORIGIN;
      hide *;
      ghost var typed := text;
      var pos := 0;
      while pos < |bin|
        invariant 0 <= pos <= |bin| && HasTyped(kind, at0, xt0, typed)
        invariant typed + EnterLines(addr, bin[pos..]) == text + EnterLines(STAGE0_ORIGIN, bin)
      {
        var n := Min(E_CHUNK, |bin| - pos);
        typed := TypeChunk(kind, addr, bin, pos, n, at0, xt0, typed);
        addr := NextAddr(addr, n);
        pos := pos + n;
      }
      NoLines(addr, bin[pos..]);
      assert typed + "" == typed;
    }

    method TypeDebugStage0(kind: MachineClass, bin: seq<u8>)
      modifies this
      ensures HasTyped(kind, old(atSent), old(xtSent), Script(bin))
    {
      ghost var at0, xt0 := atSent, xtSent;
      assert HasTyped(kind, at0, xt0, "");
      var launch := Entered(LAUNCH);
      hide *;
      assert "" + launch == launch;
      TypeMore(kind, launch, at0, xt0, "");
      TypeLines(kind, bin, at0, xt0, launch);
      var go := BuildGo();
      TypeMore(kind, go, at0, xt0, launch + EnterLines(STAGE0_ORIGIN, bin));
      ScriptIs(bin);
    }
  }

  lemma NoLines(addr: u16, bin: seq<u8>)
    requires bin == []
    ensures EnterLines(addr, bin) == ""
  {
  }

  lemma NextLine(addr: u16, bin: seq<u8>, pos: nat, n: nat)
    requires pos < |bin| && n == Min(E_CHUNK, |bin| - pos)
    ensures pos + n <= |bin| && 0 < n <= E_CHUNK
    ensures EnterLines(addr, bin[pos..]) ==
              Entered(EnterLine(addr, bin[pos..pos + n])) + EnterLines(NextAddr(addr, n), bin[pos + n..])
  {
    hide EnterLine;
    assert bin[pos..][..n] == bin[pos..pos + n] && bin[pos..][n..] == bin[pos + n..];
  }

  lemma ScriptIs(bin: seq<u8>)
    ensures Script(bin) == Entered(LAUNCH) + EnterLines(STAGE0_ORIGIN, bin) + Entered(GoLine())
  {
    hide EnterLines, Entered, GoLine;
  }

  lemma {:induction false} StrokesConcat(a: string, b: string)
    ensures Strokes2(a + b) == Strokes2(a) + Strokes2(b)
    ensures Strokes1(a + b) == Strokes1(a) + Strokes1(b)
    decreases |b|
  {
    hide Stroke1, Stroke2;
    if b == "" {
      assert a + b == a;
    } else {
      var n := |b| - 1;
      assert (a + b)[..|a + b| - 1] == a + b[..n];
      StrokesConcat(a, b[..n]);
    }
  }
}
