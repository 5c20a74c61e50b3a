/** Bytes and the ASCII characters that the decoders of src/backend_ast/builtin_network_api.c:394-676 look for. */
module Bytes {
  type byte = b: int | 0 <= b < 256 witness 0

  const TAB: byte := '\t' as int
  const LF: byte := '\n' as int
  const CR: byte := '\r' as int
  const SPACE: byte := ' ' as int
  const PERCENT: byte := '%' as int
  const PLUS: byte := '+' as int
  const COMMA: byte := ',' as int
  const MINUS: byte := '-' as int
  const SLASH: byte := '/' as int
  const ZERO: byte := '0' as int
  const NINE: byte := '9' as int
  const SEMICOLON: byte := ';' as int
  const EQUALS: byte := '=' as int
  const UPPER_A: byte := 'A' as int
  const UPPER_Z: byte := 'Z' as int
  const UNDERSCORE: byte := '_' as int
  const LOWER_A: byte := 'a' as int
  const LOWER_F: byte := 'f' as int
  const LOWER_Z: byte := 'z' as int

  function Code(c: char): byte
    requires c < 128 as char
  {
    c as int
  }

  /** The bytes of an ASCII text. */
  function Ascii(s: string): (b: seq<byte>)
    requires forall i :: 0 <= i < |s| ==> s[i] < 128 as char
    ensures |b| == |s|
  {
    seq(|s|, i requires 0 <= i < |s| => Code(s[i]))
  }

  /** `tolower` on ASCII. */
  function Lower(c: byte): byte {
    if UPPER_A <= c <= UPPER_Z then c + 32 else c
  }

  function AllLower(s: seq<byte>): (r: seq<byte>)
    ensures |r| == |s|
  {
    seq(|s|, i requires 0 <= i < |s| => Lower(s[i]))
  }
}
