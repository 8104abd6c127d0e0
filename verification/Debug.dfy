/** Hexadecimal text, and as much of the DOS prompt and of DEBUG as the bootstrap script
    relies on: `debug`, `e address byte...` and `g address`. */
module Debug {
  import opened Wrappers

  // ------------------------------------------------------------ hexadecimal

  function HexDigit(d: nat): char
    requires d < 16
  {
    "0123456789abcdef"[d]
  }

  function DigitValue(c: char): Option<nat> {
    if '0' <= c <= '9' then Some((c - '0') as nat)
    else if 'a' <= c <= 'f' then Some((c - 'a') as nat + 10)
    else None
  }

  /** `{:x}`: no leading zeros. */
  function Hex(n: nat): (s: string)
    ensures s != ""
  {
    if n < 16 then [HexDigit(n)] else Hex(n / 16) + [HexDigit(n % 16)]
  }

  /** `{:02x}` of a byte. */
  function Hex2(n: u8): (s: string)
    ensures |s| == 2
  {
    [HexDigit(n / 16), HexDigit(n % 16)]
  }

  function ParseHex(s: string): Option<nat>
    decreases |s|
  {
    if s == "" then None
    else
      var last := DigitValue(s[|s| - 1]);
      if last.None? then None
      else if |s| == 1 then last
      else
        var init := ParseHex(s[..|s| - 1]);
        if init.None? then None else Some(16 * init.value + last.value)
  }

  lemma DigitReads(d: nat)
    requires d < 16
    ensures DigitValue(HexDigit(d)) == Some(d)
  {
  }

  lemma ParseSnoc(s: string, d: nat)
    requires d < 16 && ParseHex(s).Some?
    ensures ParseHex(s + [HexDigit(d)]) == Some(16 * ParseHex(s).value + d)
  {
    DigitReads(d);
    hide HexDigit, DigitValue;
    assert (s + [HexDigit(d)])[..|s|] == s;
  }

  lemma {:induction false} HexReads(n: nat)
    ensures ParseHex(Hex(n)) == Some(n)
  {
    if n < 16 {
      DigitReads(n);
    } else {
      HexReads(n / 16);
      ParseSnoc(Hex(n / 16), n % 16);
      hide ParseHex, HexDigit;
    }
  }

  lemma Hex2Reads(n: u8)
    ensures ParseHex(Hex2(n)) == Some(n)
  {
    DigitReads(n / 16);
    DigitReads(n % 16);
    assert Hex2(n)[..1] == [HexDigit(n / 16)];
  }

  lemma HexShort(n: u16)
    ensures |Hex(n)| <= 4
  {
    hide HexDigit;
    assert |Hex(n / 16 / 16 / 16)| <= 1;
    assert |Hex(n / 16 / 16)| <= 2;
    assert |Hex(n / 16)| <= 3;
  }

  // ------------------------------------------------------------ words of a line

  function Words(line: string): (ws: seq<string>)
    ensures |ws| >= 1
    decreases |line|
  {
    if line == "" then [""]
    else
      var rest := Words(line[1..]);
      if line[0] == ' ' then [""] + rest else [[line[0]] + rest[0]] + rest[1..]
  }

  lemma {:induction false} WordsSplit(word: string, line: string)
    requires ' ' !in word
    ensures Words(word + " " + line) == [word] + Words(line)
    decreases |word|
  {
    var s := word + " " + line;
    if word == "" {
      assert s[1..] == line;
    } else {
      assert s[1..] == word[1..] + " " + line;
      WordsSplit(word[1..], line);
      assert [word[0]] + word[1..] == word;
    }
  }

  lemma {:induction false} OneWord(word: string)
    requires ' ' !in word
    ensures Words(word) == [word]
    decreases |word|
  {
    if word != "" {
      OneWord(word[1..]);
      assert [word[0]] + word[1..] == word;
    }
  }

  // ------------------------------------------------------------ the machine

  type Memory = m: seq<u8> | |m| == 0x1_0000 witness seq(0x1_0000, _ => 0)

  /** At the DOS prompt, inside DEBUG, or running a program from an address. */
  datatype Machine = Dos(mem: Memory) | Debugging(mem: Memory) | Running(mem: Memory, ip: u16) | Stopped

  function Bytes(ws: seq<string>): Option<seq<u8>>
    decreases |ws|
  {
    if ws == [] then Some([])
    else
      var n := ParseHex(ws[0]);
      var rest := Bytes(ws[1..]);
      if n.None? || n.value >= 256 || rest.None? then None else Some([n.value] + rest.value)
  }

  /** `e address byte...`: the bytes are stored from the address on. */
  function Enter(mem: Memory, at: nat, bytes: seq<u8>): Machine {
    if at + |bytes| > 0x1_0000 then Stopped
    else Debugging(mem[..at] + bytes + mem[at + |bytes|..])
  }

  /** One line, ended by the return key.  Anything unexpected stops the machine. */
  function Execute(m: Machine, line: string): Machine {
    var ws := Words(line);
    match m
    case Dos(mem) => if line == "debug" then Debugging(mem) else Stopped
    case Debugging(mem) =>
      if |ws| < 2 || ParseHex(ws[1]).None? then Stopped
      else
        var at := ParseHex(ws[1]).value;
        if ws[0] == "e" then
          match Bytes(ws[2..])
          case None => Stopped
          case Some(bytes) => Enter(mem, at, bytes)
        else if ws[0] == "g" && |ws| == 2 && at < 0x1_0000 then Running(mem, at)
        else Stopped
    case _ => Stopped
  }

  /** The longest line DOS and DEBUG take. */
  const LINE_LIMIT := 80

  /** Characters as they arrive: a line collects until the return key. */
  function Typed(m: Machine, line: string, text: string): (Machine, string)
    decreases |text|
  {
    if text == "" then (m, line)
    else if text[0] == '\r' then Typed(Execute(m, line), "", text[1..])
    else if |line| >= LINE_LIMIT then (Stopped, line)
    else Typed(m, line + [text[0]], text[1..])
  }

  lemma {:induction false} TypedLine(m: Machine, line: string, more: string, rest: string)
    requires '\r' !in more && |line| + |more| <= LINE_LIMIT
    ensures Typed(m, line, more + "\r" + rest) == Typed(Execute(m, line + more), "", rest)
    decreases |more|
  {
    hide Execute;
    var text := more + "\r" + rest;
    if more == "" {
      assert text[1..] == rest && line + more == line;
    } else {
      assert text[1..] == more[1..] + "\r" + rest;
      assert line + more == (line + [more[0]]) + more[1..];
      TypedLine(m, line + [more[0]], more[1..], rest);
    }
  }
}
