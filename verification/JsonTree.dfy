/**
 cJSON values and the text that cJSON prints for them (cjson.c).

 A value is a tree.  The children of an array or object are a chain, as in the
 source; every child has a name field, which is null for the children of an array.
 Numbers are exact reals; text is given to the integers that a double represents
 exactly.
 */
module JsonTree {
  import opened CString

  datatype Json =
    | Null
    | False
    | True
    | Number(d: real)
    | String(s: text)
    | Array(items: Kids)
    | Object(members: Kids)

  datatype Kids = Nil | Cons(name: Option<text>, value: Json, rest: Kids)

  const TWO_TO_THE_53: int := 0x20_0000_0000_0000

  predicate ExactInteger(d: real) {
    d == d.Floor as real && -TWO_TO_THE_53 <= d.Floor <= TWO_TO_THE_53
  }

  /** The tree holds only C strings, and only numbers whose text is modelled. */
  ghost predicate Printable(t: Json) {
    match t
    case Number(d) => ExactInteger(d)
    case String(s) => NulFree(s)
    case Array(k) => PrintableKids(k)
    case Object(k) => PrintableKids(k)
    case _ => true
  }

  ghost predicate PrintableKids(k: Kids) {
    match k
    case Nil => true
    case Cons(name, v, rest) => (name.Some? ==> NulFree(name.value)) && Printable(v) && PrintableKids(rest)
  }

  /** Object members have names and array items do not: the trees a parse produces. */
  ghost predicate Named(t: Json) {
    match t
    case Array(k) => NamedKids(k, false)
    case Object(k) => NamedKids(k, true)
    case _ => true
  }

  ghost predicate NamedKids(k: Kids, inObject: bool) {
    match k
    case Nil => true
    case Cons(name, v, rest) => name.Some? == inObject && Named(v) && NamedKids(rest, inObject)
  }

  const NULL_TEXT: text := [110, 117, 108, 108]
  const FALSE_TEXT: text := [102, 97, 108, 115, 101]
  const TRUE_TEXT: text := [116, 114, 117, 101]

  // ---------------------------------------------------------------- numbers

  function Decimal(n: nat): (r: text)
    ensures |r| > 0
    ensures forall i :: 0 <= i < |r| ==> IsDigit(r[i])
    ensures n > 0 ==> r[0] != ZERO
  {
    if n < 10 then [ZERO + n] else Decimal(n / 10) + [ZERO + n % 10]
  }

  /** `sprintf("%lld")` */
  function PrintInt(n: int): text {
    if n < 0 then [MINUS] + Decimal(-n) else Decimal(n)
  }

  // ---------------------------------------------------------------- strings

  function HexDigit(n: nat): byte
    requires n < 16
  {
    if n < 10 then ZERO + n else 97 + (n - 10)
  }

  /** The bytes print_string_ptr writes for one byte of the string. */
  function EscapeByte(b: byte): text {
    if b == QUOTE then [BACKSLASH, QUOTE]
    else if b == BACKSLASH then [BACKSLASH, BACKSLASH]
    else if b == 8 then [BACKSLASH, 98]
    else if b == 12 then [BACKSLASH, 102]
    else if b == NEWLINE then [BACKSLASH, 110]
    else if b == RETURN then [BACKSLASH, 114]
    else if b == TAB then [BACKSLASH, 116]
    else if b < 32 then [BACKSLASH, LOWER_U, ZERO, ZERO, HexDigit(b / 16), HexDigit(b % 16)]
    else [b]
  }

  function Escape(s: text): text {
    if s == [] then [] else EscapeByte(s[0]) + Escape(s[1..])
  }

  function Quote(s: text): text {
    [QUOTE] + Escape(s) + [QUOTE]
  }

  /** A missing name prints as the empty string. */
  function PrintName(name: Option<text>): text {
    match name
    case None => [QUOTE, QUOTE]
    case Some(s) => Quote(s)
  }

  // ---------------------------------------------------------------- values

  function Tabs(n: nat): (r: text)
    ensures |r| == n && forall i :: 0 <= i < n ==> r[i] == 9
  {
    seq(n, _ => TAB)
  }

  function If(b: bool, s: text): text {
    if b then s else []
  }

  function PrintValue(t: Json, depth: nat, fmt: bool): text
    requires Printable(t)
    decreases t, 3
  {
    match t
    case Null => NULL_TEXT
    case False => FALSE_TEXT
    case True => TRUE_TEXT
    case Number(d) => PrintInt(d.Floor)
    case String(s) => Quote(s)
    case Array(k) =>
      if k.Nil? then [LBRACKET, RBRACKET]
      else [LBRACKET] + PrintItems(k, depth + 1, fmt) + [RBRACKET]
    case Object(k) =>
      [LBRACE] + If(fmt, [NEWLINE]) + PrintMembers(k, depth + 1, fmt) + If(fmt, Tabs(depth)) + [RBRACE]
  }

  function PrintItems(k: Kids, depth: nat, fmt: bool): text
    requires PrintableKids(k)
    decreases k, 1
  {
    match k
    case Nil => []
    case Cons(_, v, rest) => PrintValue(v, depth, fmt) + Separator(rest, fmt) + PrintItems(rest, depth, fmt)
  }

  function Separator(rest: Kids, fmt: bool): text {
    if rest.Nil? then [] else [COMMA] + If(fmt, [SPACE])
  }

  function PrintMembers(k: Kids, depth: nat, fmt: bool): text
    requires PrintableKids(k)
    decreases k, 2
  {
    if k.Nil? then [] else If(fmt, Tabs(depth)) + PrintFromName(k, depth, fmt)
  }

  /** The first member from its name on, and the members after it. */
  function PrintFromName(k: Kids, depth: nat, fmt: bool): text
    requires k.Cons? && PrintableKids(k)
    decreases k, 1
  {
    PrintMember(k, depth, fmt) + PrintMembers(k.rest, depth, fmt)
  }

  /** The first member, from its name to the separator after it. */
  function PrintMember(k: Kids, depth: nat, fmt: bool): text
    requires k.Cons? && PrintableKids(k)
    decreases k, 0
  {
    PrintName(k.name) + [COLON] + If(fmt, [TAB]) + PrintValue(k.value, depth, fmt) + MemberEnd(k.rest, fmt)
  }

  function MemberEnd(rest: Kids, fmt: bool): text {
    If(rest.Cons?, [COMMA]) + If(fmt, [NEWLINE])
  }
}
