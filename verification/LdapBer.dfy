/** The structural check of an LDAP message before it is decoded: which byte strings pass, as a
    grammar of nested tag-length-value elements. */
module LdapBer {
  import opened Common

  type byte = i: int | 0 <= i < 256

  const MAX_BER_DEPTH := 32
  const MAX_BER_NODES := 4096

  const TAG_BOOLEAN := 1
  const TAG_INTEGER := 2
  const TAG_OCTET_STRING := 4
  const TAG_NULL := 5
  const TAG_ENUMERATED := 10

  // ----- The grammar -----

  /** A sequence of elements: each a header with plain content, or a header with elements inside. */
  datatype Forest =
    | Empty
    | Leaf(header: seq<byte>, content: seq<byte>, rest: Forest)
    | Nest(header: seq<byte>, inner: Forest, rest: Forest)

  /** The bytes that a forest tiles, without gap or overlap. */
  function Bytes(f: Forest): seq<byte> {
    match f
    case Empty => []
    case Leaf(header, content, rest) => header + content + Bytes(rest)
    case Nest(header, inner, rest) => header + Bytes(inner) + Bytes(rest)
  }

  function Count(f: Forest): nat {
    match f
    case Empty => 0
    case Leaf(_, _, rest) => 1 + Count(rest)
    case Nest(_, inner, rest) => 1 + Count(inner) + Count(rest)
  }

  function Max(a: nat, b: nat): nat {
    if a < b then b else a
  }

  /** How deeply elements are nested. */
  function Height(f: Forest): nat {
    match f
    case Empty => 0
    case Leaf(_, _, rest) => Height(rest)
    case Nest(_, inner, rest) => Max(1 + Height(inner), Height(rest))
  }

  function BigEndian(s: seq<byte>): nat {
    if s == [] then 0 else 256 * BigEndian(s[..|s| - 1]) + s[|s| - 1]
  }

  predicate Constructed(tag: byte) {
    tag / 32 % 2 == 1
  }

  /** A one-byte tag followed by a definite length, in one byte or in one to four more. */
  predicate IsHeader(h: seq<byte>, length: nat) {
    && |h| >= 2 && h[0] % 32 != 31
    && if h[1] < 128 then |h| == 2 && length == h[1]
       else 1 <= h[1] - 128 <= 4 && |h| == 2 + (h[1] - 128) && length == BigEndian(h[2..])
  }

  /** A length in four octets, most significant first, is read back. */
  lemma LengthOctets(n: nat)
    requires n < 0x1_0000_0000
    ensures BigEndian([n / 0x100_0000, n / 0x1_0000 % 256, n / 256 % 256, n % 256]) == n
  {
    var a: byte, b: byte, c: byte, d: byte := n / 0x100_0000, n / 0x1_0000 % 256, n / 256 % 256, n % 256;
    var one: nat, two: nat, three: nat := n / 0x100_0000, n / 0x1_0000, n / 256;
    assert BigEndian([a]) == one;
    assert [a, b][..1] == [a] && BigEndian([a, b]) == two;
    assert [a, b, c][..2] == [a, b] && BigEndian([a, b, c]) == three;
    assert [a, b, c, d][..3] == [a, b, c];
  }

  /** Universal primitives are limited to the types LDAP uses; other classes are free. */
  predicate PermittedPrimitive(tag: byte, length: nat) {
    var t := tag % 32;
    || tag >= 64
    || (if t == TAG_BOOLEAN then length == 1
        else if t == TAG_INTEGER || t == TAG_ENUMERATED then 1 <= length <= 4
        else t == TAG_OCTET_STRING || t == TAG_NULL)
  }

  predicate WellFormed(f: Forest) {
    match f
    case Empty => true
    case Leaf(h, content, rest) => IsHeader(h, |content|) && !Constructed(h[0]) && PermittedPrimitive(h[0], |content|) && WellFormed(rest)
    case Nest(h, inner, rest) => IsHeader(h, |Bytes(inner)|) && Constructed(h[0]) && WellFormed(inner) && WellFormed(rest)
  }

  // ----- Parsing -----

  datatype Extent = Extent(header: nat, length: nat)

  /** How far the first element's header and content reach. */
  function FirstExtent(data: seq<byte>): (r: Option<Extent>)
    ensures r.Some? ==> 2 <= r.value.header && r.value.header + r.value.length <= |data|
  {
    if |data| < 2 || data[0] % 32 == 31 then None
    else if data[1] < 128 then
      if data[1] > |data| - 2 then None else Some(Extent(2, data[1]))
    else
      var n := data[1] - 128;
      if n == 0 || n > 4 || |data| < 2 + n then None
      else
        var length := BigEndian(data[2..2 + n]);
        if length > |data| - (2 + n) then None else Some(Extent(2 + n, length))
  }

  function Parse(data: seq<byte>): Option<Forest>
    decreases |data|
  {
    if data == [] then Some(Empty)
    else
      var first := FirstExtent(data);
      if first.None? then None
      else
        var header, end := first.value.header, first.value.header + first.value.length;
        var rest := Parse(data[end..]);
        if rest.None? then None
        else if Constructed(data[0]) then
          var inner := Parse(data[header..end]);
          if inner.None? then None else Some(Nest(data[..header], inner.value, rest.value))
        else if PermittedPrimitive(data[0], first.value.length) then Some(Leaf(data[..header], data[header..end], rest.value))
        else None
  }

  lemma ExtentIsHeader(data: seq<byte>)
    requires FirstExtent(data).Some?
    ensures var e := FirstExtent(data).value; IsHeader(data[..e.header], e.length)
  {
    var e := FirstExtent(data).value;
    assert data[..e.header][2..] == data[2..e.header];
  }

  lemma HeaderIsExtent(h: seq<byte>, content: seq<byte>, more: seq<byte>)
    requires IsHeader(h, |content|)
    ensures FirstExtent(h + content + more) == Some(Extent(|h|, |content|))
  {
    var data := h + content + more;
    assert data[2..|h|] == h[2..];
  }

  /** What parses is well formed and tiles the data. */
  lemma {:induction false} ParseSound(data: seq<byte>)
    requires Parse(data).Some?
    ensures WellFormed(Parse(data).value) && Bytes(Parse(data).value) == data
    decreases |data|
  {
    hide IsHeader, FirstExtent, PermittedPrimitive, Constructed, Parse, BigEndian;
    if data == [] {
      ParseNothing();
    } else {
      ParseForm(data);
      var e := FirstExtent(data).value;
      var end := e.header + e.length;
      ExtentIsHeader(data);
      ParseSound(data[end..]);
      assert data == data[..e.header] + data[e.header..end] + data[end..];
      if Constructed(data[0]) {
        ParseSound(data[e.header..end]);
      }
    }
  }

  lemma ParseNothing()
    ensures Parse([]) == Some(Empty)
  {
  }

  /** What the first element of the bytes becomes. */
  lemma ParseForm(data: seq<byte>)
    requires Parse(data).Some? && data != []
    ensures FirstExtent(data).Some?
    ensures var header, end := FirstExtent(data).value.header, FirstExtent(data).value.header + FirstExtent(data).value.length;
            && Parse(data[end..]).Some?
            && if Constructed(data[0]) then
                 Parse(data[header..end]).Some? && Parse(data).value == Nest(data[..header], Parse(data[header..end]).value, Parse(data[end..]).value)
               else PermittedPrimitive(data[0], end - header) && Parse(data).value == Leaf(data[..header], data[header..end], Parse(data[end..]).value)
  {
    hide FirstExtent, PermittedPrimitive, Constructed;
  }

  lemma Pieces(h: seq<byte>, content: seq<byte>, more: seq<byte>)
    ensures var data := h + content + more;
            data[..|h|] == h && data[|h|..|h| + |content|] == content && data[|h| + |content|..] == more
  {
  }

  /** Every well-formed forest parses to itself: the reading of a byte string is unique. */
  lemma {:induction false} ParseComplete(f: Forest)
    requires WellFormed(f)
    ensures Parse(Bytes(f)) == Some(f)
  {
    hide IsHeader, FirstExtent, PermittedPrimitive, Constructed;
    match f
    case Empty =>
    case Leaf(h, content, rest) =>
      ParseComplete(rest);
      HeaderIsExtent(h, content, Bytes(rest));
      Pieces(h, content, Bytes(rest));
      NotEmpty(h, |content|);
    case Nest(h, inner, rest) =>
      ParseComplete(rest);
      ParseComplete(inner);
      HeaderIsExtent(h, Bytes(inner), Bytes(rest));
      Pieces(h, Bytes(inner), Bytes(rest));
      NotEmpty(h, |Bytes(inner)|);
  }

  lemma NotEmpty(h: seq<byte>, length: nat)
    requires IsHeader(h, length)
    ensures |h| >= 2
  {
  }

  // ----- The check -----

  /** The message is a forest within the depth bound whose nodes fit into what is left of the budget. */
  predicate Fits(data: seq<byte>, depth: nat, nodes: nat) {
    && Parse(data).Some?
    && depth + Height(Parse(data).value) < MAX_BER_DEPTH
    && nodes + Count(Parse(data).value) <= MAX_BER_NODES
  }

  /** The check passes exactly the byte strings that some well-formed forest tiles within the bounds. */
  lemma FitsIffTiled(data: seq<byte>, depth: nat, nodes: nat)
    ensures Fits(data, depth, nodes) <==>
              exists f :: && WellFormed(f) && Bytes(f) == data
                          && depth + Height(f) < MAX_BER_DEPTH && nodes + Count(f) <= MAX_BER_NODES
  {
    hide Parse, WellFormed, Bytes, Height, Count;
    if Fits(data, depth, nodes) {
      ParseSound(data);
    }
    forall f | WellFormed(f) && Bytes(f) == data ensures Parse(data) == Some(f) {
      ParseComplete(f);
    }
  }

  /** The node counter that all recursive calls share. */
  class Counter {
    var value: nat

    constructor ()
      ensures value == 0
    {
      value := 0;
    }
  }

  method ReadExtent(data: seq<byte>) returns (r: Option<Extent>)
    ensures r == FirstExtent(data)
  {
    if |data| < 2 || data[0] % 32 == 31 {
      return None;
    }
    var length: nat, header: nat := data[1], 2;
    if length >= 128 {
      var n := length - 128;
      if n == 0 || n > 4 || |data| < 2 + n {
        return None;
      }
      header := header + n;
      length := 0;
      for i := 2 to header
        invariant length == BigEndian(data[2..i])
      {
        assert data[2..i + 1][..i - 2] == data[2..i];
        length := 256 * length + data[i];
      }
    }
    if length > |data| - header {
      return None;
    }
    return Some(Extent(header, length));
  }

  method CheckPrimitive(tag: byte, length: nat) returns (ok: bool)
    ensures ok == PermittedPrimitive(tag, length)
  {
    if tag >= 64 {
      return true;
    }
    match tag % 32 {
      case 1 => return length == 1;
      case 2 => return 1 <= length <= 4;
      case 10 => return 1 <= length <= 4;
      case 4 => return true;
      case 5 => return true;
      case _ => return false;
    }
  }

  /** One element and what follows it, measured separately. */
  lemma FirstFits(data: seq<byte>, depth: nat, nodes: nat)
    requires FirstExtent(data).Some? && depth < MAX_BER_DEPTH && nodes < MAX_BER_NODES
    ensures var e := FirstExtent(data).value;
            var end := e.header + e.length;
            var inner := data[e.header..end];
            Fits(data, depth, nodes) <==>
              if Constructed(data[0]) then
                Fits(inner, depth + 1, nodes + 1) && Fits(data[end..], depth, nodes + 1 + Count(Parse(inner).value))
              else PermittedPrimitive(data[0], e.length) && Fits(data[end..], depth, nodes + 1)
    ensures var e := FirstExtent(data).value;
            Parse(data).Some? ==>
              && Parse(data[e.header + e.length..]).Some?
              && if Constructed(data[0]) then
                   Parse(data[e.header..e.header + e.length]).Some?
                   && Count(Parse(data).value) == 1 + Count(Parse(data[e.header..e.header + e.length]).value) + Count(Parse(data[e.header + e.length..]).value)
                 else Count(Parse(data).value) == 1 + Count(Parse(data[e.header + e.length..]).value)
  {
    hide FirstExtent, PermittedPrimitive, Constructed;
  }

  method ValidateBer(data: seq<byte>, depth: nat, nodes: Counter) returns (ok: bool)
    requires nodes.value <= MAX_BER_NODES
    modifies nodes
    ensures ok <==> Fits(data, depth, old(nodes.value))
    ensures ok ==> nodes.value == old(nodes.value) + Count(Parse(data).value) <= MAX_BER_NODES
    decreases |data|
  {
    hide FirstExtent, PermittedPrimitive, Constructed, Parse, Count, Height;
    EmptyFits(depth);
    if depth >= MAX_BER_DEPTH {
      return false;
    }
    var left := data;
    while left != []
      invariant |left| <= |data| && nodes.value <= MAX_BER_NODES
      invariant Fits(data, depth, old(nodes.value)) <==> Fits(left, depth, nodes.value)
      invariant Fits(left, depth, nodes.value) ==>
                  old(nodes.value) + Count(Parse(data).value) == nodes.value + Count(Parse(left).value)
      decreases |left|
    {
      NodeNeeded(left);
      if nodes.value + 1 > MAX_BER_NODES {
        return false;
      }
      var first := ReadExtent(left);
      if first.None? {
        return false;
      }
      FirstFits(left, depth, nodes.value);
      nodes.value := nodes.value + 1;
      var header, end := first.value.header, first.value.header + first.value.length;
      if Constructed(left[0]) {
        var inner := ValidateBer(left[header..end], depth + 1, nodes);
        if !inner {
          return false;
        }
      } else {
        var permitted := CheckPrimitive(left[0], first.value.length);
        if !permitted {
          return false;
        }
      }
      left := left[end..];
    }
    return true;
  }

  lemma EmptyFits(depth: nat)
    ensures Parse([]) == Some(Empty) && Count(Empty) == 0 && Height(Empty) == 0
  {
  }

  lemma NodeNeeded(data: seq<byte>)
    requires data != []
    ensures Parse(data).Some? ==> Count(Parse(data).value) >= 1 && FirstExtent(data).Some?
  {
  }

  /** A whole message starts at depth 0 with no node counted. */
  method ValidateMessage(data: seq<byte>) returns (ok: bool)
    ensures ok <==> exists f :: WellFormed(f) && Bytes(f) == data && Height(f) < MAX_BER_DEPTH && Count(f) <= MAX_BER_NODES
  {
    hide Parse, WellFormed, Bytes, Height, Count;
    var nodes := new Counter();
    ok := ValidateBer(data, 0, nodes);
    FitsIffTiled(data, 0, 0);
  }
}
