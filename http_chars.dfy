/** Octets and the character classes of section 2.2 of RFC 2616
    ("Basic Rules"), which the request parser tests bytes against. */
module HttpChars {

  /** One octet of the byte stream: the unsigned value of a C++ `char`. */
  type Byte = c: char | c as int < 256

  const CR: Byte := '\r'
  const LF: Byte := '\n'
  const SP: Byte := ' '
  const HT: Byte := '\t'

  /** The `separators` of section 2.2 of RFC 2616. */
  const Separators: seq<Byte> := "()<>@,;:\\\"/[]?={} \t"

  /** CHAR: any US-ASCII character (octets 0 - 127). */
  predicate IsChar(c: Byte) { c as int <= 127 }

  /** CTL: octets 0 - 31 and DEL (127). */
  predicate IsCtl(c: Byte) { c as int <= 31 || c as int == 127 }

  predicate IsUpAlpha(c: Byte) { 'A' <= c <= 'Z' }
  predicate IsLoAlpha(c: Byte) { 'a' <= c <= 'z' }
  predicate IsAlpha(c: Byte) { IsUpAlpha(c) || IsLoAlpha(c) }
  predicate IsDigit(c: Byte) { '0' <= c <= '9' }

  predicate IsSp(c: Byte) { c == SP }
  predicate IsHt(c: Byte) { c == HT }
  predicate IsCr(c: Byte) { c == CR }
  predicate IsLf(c: Byte) { c == LF }

  predicate IsSeparator(c: Byte) {
    || c == '(' || c == ')' || c == '<' || c == '>' || c == '@'
    || c == ',' || c == ';' || c == ':' || c == '\\' || c == '"'
    || c == '/' || c == '[' || c == ']' || c == '?' || c == '='
    || c == '{' || c == '}' || c == SP || c == HT
  }

  /** `IsSeparator` is membership in the list of section 2.2 of RFC 2616. */
  lemma SeparatorMembers(c: Byte)
    ensures c in Separators <==> IsSeparator(c)
  {
  }

  /** A byte of a `token`: a CHAR that is neither a CTL nor a separator. */
  predicate IsToken(c: Byte) { IsChar(c) && !IsCtl(c) && !IsSeparator(c) }

  /** What the parser relies on: letters and digits are token bytes, and
      no token byte is a blank, a line end, a CTL or the ':' that ends a
      header name. */
  lemma TokenClasses(c: Byte)
    ensures IsAlpha(c) || IsDigit(c) ==> IsToken(c)
    ensures IsToken(c) ==> !IsSp(c) && !IsHt(c) && !IsCr(c) && !IsLf(c) && !IsCtl(c) && c != ':'
    ensures IsToken(c) <==> 32 < c as int < 127 && c !in Separators
  {
    SeparatorMembers(c);
  }

  /** The value of a decimal digit. */
  function DigitValue(c: Byte): (d: nat)
    requires IsDigit(c)
    ensures d <= 9 && c as int == '0' as int + d
  {
    c as int - '0' as int
  }
}
