/** White space, encoded length and the text formats that several checks share. */
module Text {
  /** The white-space code points of Unicode. */
  predicate IsSpace(r: int) {
    || 9 <= r <= 13 || r == 32 || r == 0x85 || r == 0xA0 || r == 0x1680 || 0x2000 <= r <= 0x200A
    || r == 0x2028 || r == 0x2029 || r == 0x202F || r == 0x205F || r == 0x3000
  }

  /** Bytes of a code point in UTF-8. */
  function EncodedWidth(c: char): nat {
    if c as int < 0x80 then 1 else if c as int < 0x800 then 2 else if c as int < 0x10000 then 3 else 4
  }

  function EncodedLength(s: string): nat {
    if s == [] then 0 else EncodedWidth(s[0]) + EncodedLength(s[1..])
  }

  /** Something but white space. */
  predicate ValidText(s: string) {
    exists i :: 0 <= i < |s| && !IsSpace(s[i] as int)
  }

  predicate OneLine(s: string) { '\r' !in s && '\n' !in s && '\t' !in s }

  predicate ValidToken(s: string) { ValidText(s) && OneLine(s) }

  /** Every tilde starts an escape of section 3 of RFC 6901. */
  predicate EscapesOk(s: string) {
    if s == "" then true
    else if s[0] != '~' then EscapesOk(s[1..])
    else |s| > 1 && (s[1] == '0' || s[1] == '1') && EscapesOk(s[2..])
  }

  predicate ValidPointer(s: string) {
    s != "" && s[0] == '/' && OneLine(s) && EscapesOk(s)
  }

  /** The loop over a pointer, which steps over each escape at once. */
  method CheckPointer(s: string) returns (ok: bool)
    ensures ok <==> ValidPointer(s)
  {
    if s == "" || s[0] != '/' || '\r' in s || '\n' in s || '\t' in s { return false; }
    var index := 0;
    while index < |s|
      invariant index <= |s| && (EscapesOk(s) <==> EscapesOk(s[index..]))
    {
      var rest := s[index..];
      assert rest[1..] == s[index + 1..];
      if s[index] != '~' {
        index := index + 1;
        continue;
      }
      if index + 1 >= |s| || (s[index + 1] != '0' && s[index + 1] != '1') { return false; }
      assert rest[2..] == s[index + 2..];
      index := index + 2;
    }
    ok := true;
  }
}
