/** ASCII to PS/2 scancodes (firmware/src/ps2/scancode.rs), and the keyboard side that turns
    a stream of make and break codes back into characters. */
module Scancode {
  import opened Wrappers

  /** Set 2 make code, or 0 where there is none. */
  function AsciiToSet2(c: char): u8 {
    match c
    case 'a' => 0x1C case 'b' => 0x32 case 'c' => 0x21 case 'd' => 0x23 case 'e' => 0x24 case 'f' => 0x2B
    case 'g' => 0x34 case 'h' => 0x33 case 'i' => 0x43 case 'j' => 0x3B case 'k' => 0x42 case 'l' => 0x4B
    case 'm' => 0x3A case 'n' => 0x31 case 'o' => 0x44 case 'p' => 0x4D case 'q' => 0x15 case 'r' => 0x2D
    case 's' => 0x1B case 't' => 0x2C case 'u' => 0x3C case 'v' => 0x2A case 'w' => 0x1D case 'x' => 0x22
    case 'y' => 0x35 case 'z' => 0x1A case '0' => 0x45 case '1' => 0x16 case '2' => 0x1E case '3' => 0x26
    case '4' => 0x25 case '5' => 0x2E case '6' => 0x36 case '7' => 0x3D case '8' => 0x3E case '9' => 0x46
    case ' ' => 0x29 case '\r' => 0x5A case '\t' => 0x0D case '\U{0008}' => 0x66 case '-' => 0x4E case '=' => 0x55
    case '[' => 0x54 case ']' => 0x5B case ';' => 0x4C case '\'' => 0x52 case ',' => 0x41 case '.' => 0x49
    case '/' => 0x4A case '`' => 0x0E case '\\' => 0x5D
    case _ => 0
  }

  /** Set 1 make code, or 0 where there is none. */
  function AsciiToSet1(c: char): u8 {
    match c
    case 'q' => 0x10 case 'w' => 0x11 case 'e' => 0x12 case 'r' => 0x13 case 't' => 0x14 case 'y' => 0x15
    case 'u' => 0x16 case 'i' => 0x17 case 'o' => 0x18 case 'p' => 0x19 case 'a' => 0x1E case 's' => 0x1F
    case 'd' => 0x20 case 'f' => 0x21 case 'g' => 0x22 case 'h' => 0x23 case 'j' => 0x24 case 'k' => 0x25
    case 'l' => 0x26 case 'z' => 0x2C case 'x' => 0x2D case 'c' => 0x2E case 'v' => 0x2F case 'b' => 0x30
    case 'n' => 0x31 case 'm' => 0x32 case '1' => 0x02 case '2' => 0x03 case '3' => 0x04 case '4' => 0x05
    case '5' => 0x06 case '6' => 0x07 case '7' => 0x08 case '8' => 0x09 case '9' => 0x0A case '0' => 0x0B
    case ' ' => 0x39 case '\r' => 0x1C case '\t' => 0x0F case '\U{0008}' => 0x0E case '-' => 0x0C case '=' => 0x0D
    case '[' => 0x1A case ']' => 0x1B case ';' => 0x27 case '\'' => 0x28 case '`' => 0x29 case '\\' => 0x2B
    case ',' => 0x33 case '.' => 0x34 case '/' => 0x35
    case _ => 0
  }

  // ------------------------------------------------------------ the receiving side

  /** The key a Set 2 make code stands for, unshifted. */
  function Set2Key(b: u8): Option<char> {
    match b
    case 0x1C => Some('a') case 0x32 => Some('b') case 0x21 => Some('c') case 0x23 => Some('d')
    case 0x24 => Some('e') case 0x2B => Some('f') case 0x34 => Some('g') case 0x33 => Some('h')
    case 0x43 => Some('i') case 0x3B => Some('j') case 0x42 => Some('k') case 0x4B => Some('l')
    case 0x3A => Some('m') case 0x31 => Some('n') case 0x44 => Some('o') case 0x4D => Some('p')
    case 0x15 => Some('q') case 0x2D => Some('r') case 0x1B => Some('s') case 0x2C => Some('t')
    case 0x3C => Some('u') case 0x2A => Some('v') case 0x1D => Some('w') case 0x22 => Some('x')
    case 0x35 => Some('y') case 0x1A => Some('z') case 0x45 => Some('0') case 0x16 => Some('1')
    case 0x1E => Some('2') case 0x26 => Some('3') case 0x25 => Some('4') case 0x2E => Some('5')
    case 0x36 => Some('6') case 0x3D => Some('7') case 0x3E => Some('8') case 0x46 => Some('9')
    case 0x29 => Some(' ') case 0x5A => Some('\r') case 0x0D => Some('\t') case 0x66 => Some('\U{0008}')
    case 0x4E => Some('-') case 0x55 => Some('=') case 0x54 => Some('[') case 0x5B => Some(']')
    case 0x4C => Some(';') case 0x52 => Some('\'') case 0x41 => Some(',') case 0x49 => Some('.')
    case 0x4A => Some('/') case 0x0E => Some('`') case 0x5D => Some('\\')
    case _ => None
  }

  /** The key a Set 1 make code stands for, unshifted. */
  function Set1Key(b: u8): Option<char> {
    match b
    case 0x10 => Some('q') case 0x11 => Some('w') case 0x12 => Some('e') case 0x13 => Some('r')
    case 0x14 => Some('t') case 0x15 => Some('y') case 0x16 => Some('u') case 0x17 => Some('i')
    case 0x18 => Some('o') case 0x19 => Some('p') case 0x1E => Some('a') case 0x1F => Some('s')
    case 0x20 => Some('d') case 0x21 => Some('f') case 0x22 => Some('g') case 0x23 => Some('h')
    case 0x24 => Some('j') case 0x25 => Some('k') case 0x26 => Some('l') case 0x2C => Some('z')
    case 0x2D => Some('x') case 0x2E => Some('c') case 0x2F => Some('v') case 0x30 => Some('b')
    case 0x31 => Some('n') case 0x32 => Some('m') case 0x02 => Some('1') case 0x03 => Some('2')
    case 0x04 => Some('3') case 0x05 => Some('4') case 0x06 => Some('5') case 0x07 => Some('6')
    case 0x08 => Some('7') case 0x09 => Some('8') case 0x0A => Some('9') case 0x0B => Some('0')
    case 0x39 => Some(' ') case 0x1C => Some('\r') case 0x0F => Some('\t') case 0x0E => Some('\U{0008}')
    case 0x0C => Some('-') case 0x0D => Some('=') case 0x1A => Some('[') case 0x1B => Some(']')
    case 0x27 => Some(';') case 0x28 => Some('\'') case 0x29 => Some('`') case 0x2B => Some('\\')
    case 0x33 => Some(',') case 0x34 => Some('.') case 0x35 => Some('/')
    case _ => None
  }

  const BREAK_PREFIX: u8 := 0xF0

  /** What the host sees on a Set 2 line: a break prefix releases the key that follows it. */
  function HeardSet2(codes: seq<u8>, releasing: bool): string
    decreases |codes|
  {
    if codes == [] then ""
    else if codes[0] == 0xF0 then HeardSet2(codes[1..], true)
    else if releasing || Set2Key(codes[0]).None? then HeardSet2(codes[1..], false)
    else [Set2Key(codes[0]).value] + HeardSet2(codes[1..], false)
  }

  /** What the host sees on a Set 1 line: the top bit releases a key. */
  function HeardSet1(codes: seq<u8>): string
    decreases |codes|
  {
    if codes == [] then ""
    else if codes[0] >= 0x80 || Set1Key(codes[0]).None? then HeardSet1(codes[1..])
    else [Set1Key(codes[0]).value] + HeardSet1(codes[1..])
  }

  /** The keys that are down after a Set 2 line. */
  function DownSet2(codes: seq<u8>, down: set<u8>, releasing: bool): set<u8>
    decreases |codes|
  {
    if codes == [] then down
    else if codes[0] == 0xF0 then DownSet2(codes[1..], down, true)
    else DownSet2(codes[1..], if releasing then down - {codes[0]} else down + {codes[0]}, false)
  }

  /** The keys that are down after a Set 1 line. */
  function DownSet1(codes: seq<u8>, down: set<u8>): set<u8>
    decreases |codes|
  {
    if codes == [] then down
    else DownSet1(codes[1..], if codes[0] >= 0x80 then down - {codes[0] - 0x80} else down + {codes[0]})
  }

  // ------------------------------------------------------------ typing one character

  /** `code | 0x80`. */
  function WithTopBit(code: u8): u8 { if code < 0x80 then code + 0x80 else code }

  /** Make and break of one character; nothing for a character without a code. */
  function Stroke2(c: char): seq<u8> {
    var code := AsciiToSet2(c);
    if code == 0 then [] else [code, BREAK_PREFIX, code]
  }

  function Stroke1(c: char): seq<u8> {
    var code := AsciiToSet1(c);
    if code == 0 then [] else [code, WithTopBit(code)]
  }

  predicate Typeable(c: char) { AsciiToSet1(c) != 0 && AsciiToSet2(c) != 0 }

  /** Every code in the tables is a make code of exactly the key it was looked up for. */
  lemma Set2Exact(c: char)
    ensures AsciiToSet2(c) != 0 ==> Set2Key(AsciiToSet2(c)) == Some(c) && AsciiToSet2(c) != BREAK_PREFIX
  {
  }

  lemma Set1Exact(c: char)
    ensures AsciiToSet1(c) != 0 ==> Set1Key(AsciiToSet1(c)) == Some(c) && AsciiToSet1(c) < 0x80
  {
  }

  lemma SameCharacters(c: char)
    ensures AsciiToSet1(c) != 0 <==> AsciiToSet2(c) != 0
  {
  }
}
