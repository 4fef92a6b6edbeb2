/** Python's `str()` of the registry rows, which the registry bot pastes into
    its prompt: `repr` of lists, dictionaries, strings, integers, booleans and
    None, restricted to characters below U+0100 for the escaping rules. */
module PyRepr {
  import opened Wrappers
  import opened PyStr
  import opened PyDict
  import opened Json

  const Backslash: char := '\\'
  const SingleQuote: char := '\''
  const DoubleQuote: char := '"'

  /** Characters below U+0100 that `repr` writes as `\xNN`: the C0 controls,
      DEL, the C1 controls, no-break space and soft hyphen. */
  predicate NonPrintable(c: char) {
    c as int < 0x20 || (0x7f <= c as int <= 0xa0) || c as int == 0xad
  }

  /** The lower-case hexadecimal digits `repr` writes. */
  predicate IsHex(c: char) {
    '0' <= c <= '9' || 'a' <= c <= 'f'
  }

  function HexValue(c: char): (v: nat)
    requires IsHex(c)
    ensures v < 16
  {
    if '0' <= c <= '9' then c as int - '0' as int else c as int - 'a' as int + 10
  }

  function HexDigit(v: nat): (c: char)
    requires v < 16
    ensures IsHex(c) && HexValue(c) == v
  {
    if v < 10 then ('0' as int + v) as char else ('a' as int + v - 10) as char
  }

  /** The escape `repr` writes for one character inside a literal quoted
      with `q`. */
  function EscapeChar(c: char, q: char): (e: string)
    ensures 1 <= |e| <= 4
    ensures |e| == 1 <==> e == [c]
    ensures |e| > 1 ==> e[0] == Backslash
  {
    if c == Backslash then [Backslash, Backslash]
    else if c == q then [Backslash, q]
    else if c == '\t' then [Backslash, 't']
    else if c == '\n' then [Backslash, 'n']
    else if c == '\r' then [Backslash, 'r']
    else if NonPrintable(c) then [Backslash, 'x', HexDigit(c as int / 16), HexDigit(c as int % 16)]
    else [c]
  }

  /** The body of a string literal. */
  function Escape(s: string, q: char): string
    decreases |s|
  {
    if |s| == 0 then "" else EscapeChar(s[0], q) + Escape(s[1..], q)
  }

  /** `repr` prefers single quotes and switches to double quotes only for a
      string that holds a single quote and no double quote. */
  function QuoteFor(s: string): (q: char)
    ensures q == SingleQuote || q == DoubleQuote
    ensures q == DoubleQuote <==> SingleQuote in s && DoubleQuote !in s
  {
    if SingleQuote in s && DoubleQuote !in s then DoubleQuote else SingleQuote
  }

  function ReprStr(s: string): (r: string)
    ensures |r| >= 2 && r[0] == r[|r| - 1] == QuoteFor(s)
  {
    [QuoteFor(s)] + Escape(s, QuoteFor(s)) + [QuoteFor(s)]
  }

  /** `repr` of a decoded JSON value: dictionaries as `{'k': v, ...}` in
      insertion order, lists as `[a, b, ...]`. */
  function Repr(j: Json): (r: string)
    ensures |r| >= 1
    ensures j.JStr? ==> ReadStr(r) == Some(j.s)
    ensures j.JArr? ==> r[0] == '[' && r[|r| - 1] == ']'
    ensures j.JObj? ==> r[0] == '{' && r[|r| - 1] == '}'
    decreases j
  {
    match j
    case JNull => "None"
    case JBool(b) => if b then "True" else "False"
    case JInt(i) => IntToString(i)
    case JStr(s) => ReadReprStr(s); ReprStr(s)
    case JArr(items) =>
      "[" + Join(seq(|items|, k requires 0 <= k < |items| => Repr(items[k])), ", ") + "]"
    case JObj(members) =>
      "{" + Join(seq(|members|, k requires 0 <= k < |members| => ReprMember(members[k])), ", ") + "}"
  }

  function ReprMember(m: Entry<Json>): string
    decreases m
  {
    ReprStr(m.key) + ": " + Repr(m.value)
  }

  // ---------------------------------------------------------------------
  // Reading a string literal back

  function Prepend(c: char, r: Option<string>): Option<string> {
    match r
    case None => None
    case Some(t) => Some([c] + t)
  }

  /** Reads the body of a literal quoted with `q`: the inverse of `Escape`. */
  function Unescape(t: string, q: char): Option<string>
    decreases |t|
  {
    if |t| == 0 then Some("")
    else if t[0] == Backslash then
      if |t| < 2 then None
      else if t[1] == Backslash || t[1] == q then Prepend(t[1], Unescape(t[2..], q))
      else if t[1] == 't' then Prepend('\t', Unescape(t[2..], q))
      else if t[1] == 'n' then Prepend('\n', Unescape(t[2..], q))
      else if t[1] == 'r' then Prepend('\r', Unescape(t[2..], q))
      else if t[1] == 'x' && |t| >= 4 && IsHex(t[2]) && IsHex(t[3]) then
        Prepend((16 * HexValue(t[2]) + HexValue(t[3])) as char, Unescape(t[4..], q))
      else None
    else if t[0] == q then None
    else Prepend(t[0], Unescape(t[1..], q))
  }

  /** Reads a whole string literal. */
  function ReadStr(r: string): Option<string> {
    if |r| >= 2 && r[0] == r[|r| - 1] && (r[0] == SingleQuote || r[0] == DoubleQuote)
    then Unescape(r[1..|r| - 1], r[0])
    else None
  }

  lemma UnescapeChar(c: char, q: char, rest: string)
    requires q == SingleQuote || q == DoubleQuote
    ensures Unescape(EscapeChar(c, q) + rest, q) == Prepend(c, Unescape(rest, q))
  {
    if c == Backslash || c == q {
      UnescapePair(c, q, rest);
    } else if c == '\t' {
      UnescapePair('t', q, rest);
    } else if c == '\n' {
      UnescapePair('n', q, rest);
    } else if c == '\r' {
      UnescapePair('r', q, rest);
    } else if NonPrintable(c) {
      UnescapeHex(c, q, rest);
    } else {
      assert ([c] + rest)[1..] == rest;
    }
  }

  /** A two-character escape reads back as the character it stands for. */
  lemma UnescapePair(d: char, q: char, rest: string)
    requires q == SingleQuote || q == DoubleQuote
    requires d == Backslash || d == q || d == 't' || d == 'n' || d == 'r'
    ensures Unescape([Backslash, d] + rest, q)
            == Prepend(if d == 't' then '\t' else if d == 'n' then '\n' else if d == 'r' then '\r' else d,
                       Unescape(rest, q))
  {
    assert ([Backslash, d] + rest)[2..] == rest;
  }

  /** A `\xNN` escape reads back as the character it encodes. */
  lemma UnescapeHex(c: char, q: char, rest: string)
    requires q == SingleQuote || q == DoubleQuote
    requires NonPrintable(c)
    ensures Unescape([Backslash, 'x', HexDigit(c as int / 16), HexDigit(c as int % 16)] + rest, q)
            == Prepend(c, Unescape(rest, q))
  {
    var t := [Backslash, 'x', HexDigit(c as int / 16), HexDigit(c as int % 16)] + rest;
    assert t[4..] == rest;
  }

  /** Escaping loses nothing: the body reads back as the original string. */
  lemma {:induction false} UnescapeEscape(s: string, q: char)
    requires q == SingleQuote || q == DoubleQuote
    ensures Unescape(Escape(s, q), q) == Some(s)
    decreases |s|
  {
    if |s| > 0 {
      UnescapeChar(s[0], q, Escape(s[1..], q));
      UnescapeEscape(s[1..], q);
      assert [s[0]] + s[1..] == s;
    }
  }

  /** The literal `repr` writes for a string reads back as that string. */
  lemma ReadReprStr(s: string)
    ensures ReadStr(ReprStr(s)) == Some(s)
  {
    var r := ReprStr(s);
    assert r[1..|r| - 1] == Escape(s, QuoteFor(s));
    UnescapeEscape(s, QuoteFor(s));
  }

  // ---------------------------------------------------------------------
  // Layout

  lemma {:induction false} EscapeSingleLine(s: string, q: char)
    requires q == SingleQuote || q == DoubleQuote
    ensures '\n' !in Escape(s, q)
    decreases |s|
  {
    if |s| > 0 {
      EscapeSingleLine(s[1..], q);
      assert '\n' !in EscapeChar(s[0], q);
    }
  }

  lemma ReprStrSingleLine(s: string)
    ensures '\n' !in ReprStr(s)
  {
    EscapeSingleLine(s, QuoteFor(s));
  }

  /** No newline survives `repr`: a value, however nested, prints on one line. */
  lemma {:induction false} ReprSingleLine(j: Json)
    ensures '\n' !in Repr(j)
    decreases j
  {
    match j
    case JNull =>
    case JBool(b) =>
    case JInt(i) =>
      assert forall k :: 0 <= k < |IntToString(i)| ==> IntToString(i)[k] == '-' || '0' <= IntToString(i)[k] <= '9';
    case JStr(s) =>
      ReprStrSingleLine(s);
    case JArr(items) =>
      var parts := seq(|items|, k requires 0 <= k < |items| => Repr(items[k]));
      forall k | 0 <= k < |items| ensures '\n' !in parts[k] {
        ReprSingleLine(items[k]);
      }
      JoinAvoids(parts, ", ", '\n');
    case JObj(members) =>
      var parts := seq(|members|, k requires 0 <= k < |members| => ReprMember(members[k]));
      forall k | 0 <= k < |members| ensures '\n' !in parts[k] {
        ReprStrSingleLine(members[k].key);
        ReprSingleLine(members[k].value);
      }
      JoinAvoids(parts, ", ", '\n');
  }
}
