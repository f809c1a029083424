/** The request format of thread_main.c: the serialiser fills a buffer field by field, the parser walks it again. */
module EntityReq {
  import opened Unsigned

  type Byte = b: nat | b < 256

  const INT: nat := 4          // sizeof(int)
  const LONG: nat := 8         // sizeof(unsigned long)
  const INT_MAX: nat := 0x7FFF_FFFF
  const FIXED: nat := 24       // 4 * sizeof(int) + sizeof(unsigned long)

  /** entity_req as its creator holds it: names without a NUL, as strlen sees them. */
  datatype Req = Req(msg_type: nat, name: seq<Byte>, group_name: seq<Byte>, reg_token: nat, content: seq<Byte>) {
    predicate Ok() {
      && msg_type < Power(256, INT) && reg_token < Power(256, LONG) && 0 !in name && 0 !in group_name
      && |name| + |group_name| + |content| + FIXED <= INT_MAX
    }
  }

  const REQ_SIZE: nat := 40    // sizeof(entity_req)

  /**
   * What the parser comes to: NULL; entity_req, each name buffer with one byte more than the name; or,
   * after which C promises nothing, an access outside the buffer or the overflow of a length plus one.
   */
  datatype Parsed =
    | Rejected
    | Accepted(msg_type: nat, name: seq<Byte>, group_name: seq<Byte>, reg_token: nat, content: seq<Byte>)
    | Overrun
    | Overflow

  /* ---------- little-endian numbers ---------- */

  function Le(v: nat, n: nat): (b: seq<Byte>)
    ensures |b| == n
  {
    if n == 0 then [] else [v % 256] + Le(v / 256, n - 1)
  }

  function FromLe(b: seq<Byte>): nat {
    if b == [] then 0 else b[0] + 256 * FromLe(b[1..])
  }

  lemma {:induction false} LeRead(v: nat, n: nat)
    requires v < Power(256, n)
    ensures FromLe(Le(v, n)) == v
  {
    if n > 0 {
      LeRead(v / 256, n - 1);
      assert Le(v, n)[1..] == Le(v / 256, n - 1);
    }
  }

  /** Byte k of a number is its digit k to the base of 256, the least one first. */
  lemma {:induction false} LeDigits(v: nat, n: nat, k: nat)
    requires k < n
    ensures Power(256, k) > 0 && Le(v, n)[k] == v / Power(256, k) % 256
    decreases k
  {
    if k > 0 {
      LeDigits(v / 256, n - 1, k - 1);
      NestedQuotient(v, Power(256, k - 1));
    }
  }

  lemma {:induction false} NestedQuotient(v: nat, b: nat)
    requires b > 0
    ensures v / 256 / b == v / (256 * b)
  {
    var q, r := v / 256, v % 256;
    var x, y := q / b, q % b;
    assert q == x * b + y;
    assert x * (256 * b) == 256 * (x * b);
    QuotientUnique(v, 256 * b, x, 256 * y + r);
  }

  lemma {:induction false} LeWritten(b: seq<Byte>)
    ensures FromLe(b) < Power(256, |b|) && Le(FromLe(b), |b|) == b
    decreases |b|
  {
    if b != [] {
      LeWritten(b[1..]);
      LeDigit(b[0], FromLe(b[1..]));
      assert FromLe(b) == b[0] + 256 * FromLe(b[1..]);
      assert Le(FromLe(b), |b|) == [b[0]] + Le(FromLe(b[1..]), |b| - 1);
    }
  }

  lemma {:induction false} LeDigit(x: Byte, rest: nat)
    ensures (x + 256 * rest) % 256 == x && (x + 256 * rest) / 256 == rest
  {
  }

  /** The value of four bytes read as an int. */
  function Signed(v: nat): int {
    if v <= INT_MAX then v else v - Power(256, INT)
  }

  /* ---------- the serialiser ---------- */

  function Encoded(r: Req): seq<Byte> {
    Le(r.msg_type, INT) + Le(|r.name|, INT) + r.name + Le(|r.group_name|, INT) + r.group_name
    + Le(r.reg_token, LONG) + Le(|r.content|, INT) + r.content
  }

  /** *(int*)p = v and *(unsigned long*)p = v */
  method PutLe(mem: array<Byte>, at: nat, v: nat, n: nat)
    requires at + n <= mem.Length
    modifies mem
    ensures mem[..at + n] == old(mem[..at]) + Le(v, n)
  {
    var i, rest := 0, v;
    ghost var was := mem[..at];
    while i < n
      invariant 0 <= i <= n && mem[..at + i] + Le(rest, n - i) == was + Le(v, n)
    {
      assert Le(rest, n - i) == [rest % 256] + Le(rest / 256, n - i - 1);
      ghost var before := mem[..at + i];
      mem[at + i] := rest % 256;
      assert mem[..at + i + 1] == before + [rest % 256];
      i, rest := i + 1, rest / 256;
    }
  }

  /** memcpy */
  method Memcpy(mem: array<Byte>, at: nat, s: seq<Byte>)
    requires at + |s| <= mem.Length
    modifies mem
    ensures mem[..at + |s|] == old(mem[..at]) + s
  {
    var i := 0;
    ghost var was := mem[..at];
    while i < |s|
      invariant 0 <= i <= |s| && mem[..at + i] == was + s[..i]
    {
      ghost var before := mem[..at + i];
      mem[at + i] := s[i];
      assert mem[..at + i + 1] == before + [s[i]];
      i := i + 1;
    }
    assert s[..|s|] == s;
  }

  /** strcpy: the terminating NUL lands one byte past the name, where the next field goes. */
  method Strcpy(mem: array<Byte>, at: nat, s: seq<Byte>)
    requires at + |s| < mem.Length
    modifies mem
    ensures mem[..at + |s|] == old(mem[..at]) + s
  {
    Memcpy(mem, at, s);
    mem[at + |s|] := 0;
  }

  /** serial_entity_req: -1 for an empty name, else the length, with every byte of the buffer written. */
  method SerialEntityReq(req: Req) returns (r: int, msg: array?<Byte>)
    requires req.Ok()
    ensures req.name == [] || req.group_name == [] ==> r == -1 && msg == null
    ensures req.name != [] && req.group_name != [] ==>
              msg != null && fresh(msg) && msg[..] == Encoded(req) && r == msg.Length
  {
    hide Le, Power;
    if |req.name| == 0 || |req.group_name| == 0 {
      return -1, null;
    }
    var mem_len := |req.name| + |req.group_name| + |req.content| + 4 * INT + LONG;
    var mem := new Byte[mem_len];
    var at := PutNames(mem, req);
    PutLe(mem, at, req.reg_token, LONG);
    at := at + LONG;
    PutLe(mem, at, |req.content|, INT);
    at := at + INT;
    Memcpy(mem, at, req.content);
    assert mem[..mem_len] == mem[..];
    return mem_len, mem;
  }

  /** The first part: message type and both names, each after its length. */
  method PutNames(mem: array<Byte>, req: Req) returns (at: nat)
    requires |req.name| + |req.group_name| + 3 * INT < mem.Length
    modifies mem
    ensures at == |req.name| + |req.group_name| + 3 * INT
    ensures mem[..at] == Le(req.msg_type, INT) + Le(|req.name|, INT) + req.name + Le(|req.group_name|, INT)
              + req.group_name
  {
    hide Le;
    at := 0;
    PutLe(mem, at, req.msg_type, INT);
    at := at + INT;
    PutLe(mem, at, |req.name|, INT);
    at := at + INT;
    Strcpy(mem, at, req.name);
    at := at + |req.name|;
    PutLe(mem, at, |req.group_name|, INT);
    at := at + INT;
    Strcpy(mem, at, req.group_name);
    at := at + |req.group_name|;
  }

  /* ---------- the parser ---------- */

  /** *(int*)p and *(unsigned long*)p */
  function GetLe(mem: seq<Byte>, at: nat, n: nat): nat
    requires at + n <= |mem|
  {
    FromLe(mem[at..at + n])
  }

  function NameLen(mem: seq<Byte>): nat
    requires |mem| >= 8
  {
    GetLe(mem, 4, INT)
  }

  function GroupAt(mem: seq<Byte>): nat
    requires |mem| >= 8
  {
    8 + NameLen(mem)
  }

  function GroupLen(mem: seq<Byte>): nat
    requires |mem| >= 8 && GroupAt(mem) + INT <= |mem|
  {
    GetLe(mem, GroupAt(mem), INT)
  }

  /** The fields before the content lie inside the buffer. */
  predicate Framed(mem: seq<Byte>) {
    && |mem| >= 8 && GroupAt(mem) + INT <= |mem|
    && NameLen(mem) + GroupLen(mem) + FIXED <= |mem|
  }

  /** The int in front of the content. */
  function MsgSize(mem: seq<Byte>): int
    requires Framed(mem)
  {
    Signed(GetLe(mem, FIXED + NameLen(mem) + GroupLen(mem) - INT, INT))
  }

  /** strncpy: the bytes up to a NUL, then NULs up to `n`. */
  function Strncpy(src: seq<Byte>): (r: seq<Byte>)
    ensures |r| == |src|
    ensures 0 !in src ==> r == src
  {
    if src == [] then []
    else if src[0] == 0 then seq(|src|, _ => 0)
    else [src[0]] + Strncpy(src[1..])
  }

  /**
   * What deserial_entity_req makes of a message of `mem_len` bytes in the buffer `mem`; `junk` are the
   * bytes malloc left at the ends of the name buffers. A length below -1 makes malloc refuse.
   */
  function Decoded(mem: seq<Byte>, mem_len: int, junk: (Byte, Byte)): Parsed {
    if |mem| < 8 then Overrun
    else if Signed(NameLen(mem)) < -1 then Rejected
    else if NameLen(mem) == INT_MAX then Overflow
    else if GroupAt(mem) + INT > |mem| then Overrun
    else if Signed(GroupLen(mem)) < -1 then Rejected
    else if GroupLen(mem) == INT_MAX then Overflow
    else if NameLen(mem) + GroupLen(mem) + FIXED > |mem| then Overrun
    else Body(mem, mem_len, junk)
  }

  function Body(mem: seq<Byte>, mem_len: int, junk: (Byte, Byte)): Parsed
    requires Framed(mem)
  {
    var n, g, size := NameLen(mem), GroupLen(mem), MsgSize(mem);
    var offset := FIXED + n + g;
    if mem_len - offset != size || REQ_SIZE + size < 0 then Rejected
    else if size < 0 || offset + size > |mem| then Overrun
    else
      Accepted(GetLe(mem, 0, INT), Strncpy(mem[8..8 + n]) + [junk.0],
               Strncpy(mem[12 + n..12 + n + g]) + [junk.1],
               GetLe(mem, 12 + n + g, LONG), mem[offset..offset + size])
  }

  /** deserial_entity_req, with the cursor it advances field by field. */
  method DeserialEntityReq(serial_mem: seq<Byte>, mem_len: int, junk: (Byte, Byte)) returns (r: Parsed)
    ensures r == Decoded(serial_mem, mem_len, junk)
  {
    hide FromLe, Strncpy, GetLe;
    var offset := 0;
    if offset + 2 * INT > |serial_mem| { return Overrun; }
    var msg_type := GetLe(serial_mem, offset, INT);
    offset := offset + INT;
    var name_len := GetLe(serial_mem, offset, INT);
    offset := offset + INT;
    if Signed(name_len) < -1 { return Rejected; }                       // malloc(name_len + 1)
    if name_len == INT_MAX { return Overflow; }
    if offset + name_len + INT > |serial_mem| { return Overrun; }
    var name := Strncpy(serial_mem[offset..offset + name_len]) + [junk.0];
    offset := offset + name_len;
    var group_name_len := GetLe(serial_mem, offset, INT);
    offset := offset + INT;
    if Signed(group_name_len) < -1 { return Rejected; }                 // malloc(group_name_len + 1)
    if group_name_len == INT_MAX { return Overflow; }
    if offset + group_name_len + LONG + INT > |serial_mem| { return Overrun; }
    var group_name := Strncpy(serial_mem[offset..offset + group_name_len]) + [junk.1];
    offset := offset + group_name_len;
    var reg_token := GetLe(serial_mem, offset, LONG);
    offset := offset + LONG;
    var msg_size := Signed(GetLe(serial_mem, offset, INT));
    offset := offset + INT;
    if mem_len - offset != msg_size {
      return Rejected;
    }
    if REQ_SIZE + msg_size < 0 { return Rejected; }                     // malloc(sizeof(entity_req) + msg_size)
    if msg_size < 0 || offset + msg_size > |serial_mem| { return Overrun; }
    return Accepted(msg_type, name, group_name, reg_token, serial_mem[offset..offset + msg_size]);
  }

  /* ---------- writer and reader undo each other ---------- */

  lemma {:induction false} Field(pre: seq<Byte>, field: seq<Byte>, post: seq<Byte>)
    ensures (pre + field + post)[|pre|..|pre| + |field|] == field
  {}

  lemma {:induction false} IntPowers()
    ensures Power(256, INT) == 0x1_0000_0000
  {
    assert Power(256, 2) == 0x1_0000;
  }

  lemma {:induction false} IntField(pre: seq<Byte>, v: nat, n: nat, post: seq<Byte>)
    requires v < Power(256, n)
    ensures GetLe(pre + Le(v, n) + post, |pre|, n) == v
  {
    hide Le, FromLe;
    Field(pre, Le(v, n), post);
    LeRead(v, n);
  }

  /** Where each field of an encoded request lies. */
  lemma {:induction false} Fields(r: Req)
    requires r.Ok()
    ensures var b, n, g := Encoded(r), |r.name|, |r.group_name|;
            && |b| == FIXED + n + g + |r.content|
            && GetLe(b, 0, INT) == r.msg_type && GetLe(b, 4, INT) == n && b[8..8 + n] == r.name
            && GetLe(b, 8 + n, INT) == g && b[12 + n..12 + n + g] == r.group_name
            && GetLe(b, 12 + n + g, LONG) == r.reg_token && GetLe(b, 20 + n + g, INT) == |r.content|
            && b[FIXED + n + g..] == r.content
  {
    hide Le, FromLe, GetLe, Power;
    IntPowers();
    var t, nl, gl, tok, cl := Le(r.msg_type, INT), Le(|r.name|, INT), Le(|r.group_name|, INT), Le(r.reg_token, LONG),
        Le(|r.content|, INT);
    var b := Encoded(r);
    var name, group, content := r.name, r.group_name, r.content;
    Regroup(t, nl, name, gl, group, tok, cl, content);
    IntField([], r.msg_type, INT, nl + name + gl + group + tok + cl + content);
    IntField(t, |name|, INT, name + gl + group + tok + cl + content);
    IntField(t + nl + name, |group|, INT, group + tok + cl + content);
    IntField(t + nl + name + gl + group, r.reg_token, LONG, cl + content);
    IntField(t + nl + name + gl + group + tok, |content|, INT, content);
    Field(t + nl, name, gl + group + tok + cl + content);
    Field(t + nl + name + gl, group, tok + cl + content);
    Field(t + nl + name + gl + group + tok + cl, content, []);
  }

  lemma {:induction false} Regroup(a: seq<Byte>, b: seq<Byte>, c: seq<Byte>, d: seq<Byte>, e: seq<Byte>,
                                   f: seq<Byte>, g: seq<Byte>, h: seq<Byte>)
    ensures var s := a + b + c + d + e + f + g + h;
            && s == [] + a + (b + c + d + e + f + g + h)
            && s == a + b + (c + d + e + f + g + h)
            && s == (a + b) + c + (d + e + f + g + h)
            && s == (a + b + c) + d + (e + f + g + h)
            && s == (a + b + c + d) + e + (f + g + h)
            && s == (a + b + c + d + e) + f + (g + h)
            && s == (a + b + c + d + e + f + g) + h + []
  {}

  lemma {:induction false} Small(v: nat)
    requires v <= INT_MAX
    ensures Signed(v) == v
  {}

  /** Parsing what was serialised gives back every field, whatever follows it in the buffer. */
  lemma {:induction false} RoundTrip(r: Req, junk: (Byte, Byte), rest: seq<Byte>)
    requires r.Ok()
    ensures Decoded(Encoded(r) + rest, |Encoded(r)|, junk)
         == Accepted(r.msg_type, r.name + [junk.0], r.group_name + [junk.1], r.reg_token, r.content)
  {
    hide Encoded, GetLe, Power, Strncpy;
    IntPowers();
    Fields(r);
    Kept(r, Encoded(r) + rest);
    Small(|r.content|);
  }

  /** The fields of an encoded request in a buffer that begins with its fixed part. */
  lemma {:induction false} Kept(r: Req, mem: seq<Byte>)
    requires r.Ok() && var fixed := FIXED + |r.name| + |r.group_name|;
                       fixed <= |mem| && fixed <= |Encoded(r)| && mem[..fixed] == Encoded(r)[..fixed]
    ensures Framed(mem) && NameLen(mem) == |r.name| && GroupLen(mem) == |r.group_name| && MsgSize(mem) == |r.content|
    ensures var n, g := |r.name|, |r.group_name|;
            && GetLe(mem, 0, INT) == r.msg_type && mem[8..8 + n] == r.name && mem[12 + n..12 + n + g] == r.group_name
            && GetLe(mem, 12 + n + g, LONG) == r.reg_token
  {
    hide Encoded, FromLe, Power;
    IntPowers();
    Fields(r);
    var b, n, g := Encoded(r), |r.name|, |r.group_name|;
    Same(b, mem, FIXED + n + g, 0, 4);
    Same(b, mem, FIXED + n + g, 4, 8);
    Same(b, mem, FIXED + n + g, 8, 8 + n);
    Same(b, mem, FIXED + n + g, 8 + n, 12 + n);
    Same(b, mem, FIXED + n + g, 12 + n, 12 + n + g);
    Same(b, mem, FIXED + n + g, 12 + n + g, 20 + n + g);
    Same(b, mem, FIXED + n + g, 20 + n + g, 24 + n + g);
    Small(|r.content|);
  }

  lemma {:induction false} Same(a: seq<Byte>, b: seq<Byte>, n: nat, i: nat, j: nat)
    requires i <= j <= n <= |a| && n <= |b| && a[..n] == b[..n]
    ensures a[i..j] == b[i..j]
  {
    assert a[i..j] == a[..n][i..j] && b[i..j] == b[..n][i..j];
  }

  /**
   * A message with the fields of a serialised request and any other length, cut short in its content or
   * padded, is rejected.
   */
  lemma {:induction false} OtherLengthRejected(r: Req, mem: seq<Byte>, mem_len: int, junk: (Byte, Byte))
    requires r.Ok() && var fixed := FIXED + |r.name| + |r.group_name|;
                       fixed <= |mem| && fixed <= |Encoded(r)| && mem[..fixed] == Encoded(r)[..fixed]
    requires mem_len != |Encoded(r)|
    ensures Decoded(mem, mem_len, junk) == Rejected
  {
    hide Encoded, GetLe, Power, Strncpy;
    IntPowers();
    Fields(r);
    Kept(r, mem);
    Small(|r.name|);
    Small(|r.group_name|);
  }

  /** A buffer that ends before those fields do is read past its end. */
  lemma {:induction false} ShortBufferOverruns(r: Req, n: nat, mem_len: int, junk: (Byte, Byte))
    requires r.Ok() && n < FIXED + |r.name| + |r.group_name| && n <= |Encoded(r)|
    ensures Decoded(Encoded(r)[..n], mem_len, junk) == Overrun
  {
    hide Encoded, Power, FromLe, Strncpy;
    IntPowers();
    Fields(r);
    var b, mem := Encoded(r), Encoded(r)[..n];
    if n >= 8 {
      Same(b, mem, n, 4, 8);
      Small(|r.name|);
      if n >= 12 + |r.name| {
        Same(b, mem, n, 8 + |r.name|, 12 + |r.name|);
        Small(|r.group_name|);
      }
    }
  }

  /**
   * What a caller would have to check before the call: each length is one that malloc refuses, or the next
   * fixed field lies inside the buffer; and so for the content, unless the message is rejected before it.
   */
  predicate Readable(mem: seq<Byte>, mem_len: int) {
    && |mem| >= 8
    && (Signed(NameLen(mem)) < -1
        || (NameLen(mem) != INT_MAX && GroupAt(mem) + INT <= |mem|
            && (Signed(GroupLen(mem)) < -1
                || (GroupLen(mem) != INT_MAX && NameLen(mem) + GroupLen(mem) + FIXED <= |mem|
                    && ContentReadable(mem, mem_len)))))
  }

  predicate ContentReadable(mem: seq<Byte>, mem_len: int)
    requires Framed(mem)
  {
    var offset, size := FIXED + NameLen(mem) + GroupLen(mem), MsgSize(mem);
    mem_len - offset != size || REQ_SIZE + size < 0 || 0 <= size <= |mem| - offset
  }

  /** The parser stays inside its buffer, and inside int, exactly for those messages. */
  lemma {:induction false} StaysInsideIff(mem: seq<Byte>, mem_len: int, junk: (Byte, Byte))
    ensures !(Decoded(mem, mem_len, junk).Overrun? || Decoded(mem, mem_len, junk).Overflow?) <==> Readable(mem, mem_len)
  {
    hide FromLe, Power, Strncpy;
  }

  /**
   * With no negative size in it, a message inside its buffer is read past the end exactly when its fixed fields
   * are not in the buffer.
   */
  lemma {:induction false} OverrunIffUnframed(mem: seq<Byte>, mem_len: nat, junk: (Byte, Byte))
    requires mem_len <= |mem|
    requires |mem| >= 8 ==> NameLen(mem) < INT_MAX
    requires |mem| >= 8 && GroupAt(mem) + INT <= |mem| ==> GroupLen(mem) < INT_MAX
    requires Framed(mem) ==> MsgSize(mem) >= 0
    ensures Decoded(mem, mem_len, junk) == Overrun <==> !Framed(mem)
  {
    hide FromLe, Power, Strncpy;
    if |mem| >= 8 {
      Small(NameLen(mem));
      if GroupAt(mem) + INT <= |mem| { Small(GroupLen(mem)); }
    }
  }

  /**
   * A message is rejected exactly when its length disagrees with the sizes written in it, or a size in
   * it is so negative that malloc refuses.
   */
  lemma {:induction false} RejectedIff(mem: seq<Byte>, mem_len: int, junk: (Byte, Byte))
    requires Framed(mem) && |mem| <= INT_MAX
    ensures Decoded(mem, mem_len, junk).Rejected?
       <==> mem_len != FIXED + NameLen(mem) + GroupLen(mem) + MsgSize(mem) || REQ_SIZE + MsgSize(mem) < 0
  {
    hide FromLe, Power, Strncpy;
    Small(NameLen(mem));
    Small(GroupLen(mem));
  }

  /** The fields of an accepted message, as bytes of it. */
  lemma {:induction false} Pieces(mem: seq<Byte>, mem_len: int, junk: (Byte, Byte), r: Req)
    requires 0 !in r.name && 0 !in r.group_name
    requires Decoded(mem, mem_len, junk)
          == Accepted(r.msg_type, r.name + [junk.0], r.group_name + [junk.1], r.reg_token, r.content)
    ensures Framed(mem) && mem_len == FIXED + NameLen(mem) + GroupLen(mem) + |r.content| <= |mem|
    ensures var n, g := NameLen(mem), GroupLen(mem);
            && Le(r.msg_type, INT) == mem[0..4] && Le(|r.name|, INT) == mem[4..8] && r.name == mem[8..8 + n]
            && Le(|r.group_name|, INT) == mem[8 + n..12 + n] && r.group_name == mem[12 + n..12 + n + g]
            && Le(r.reg_token, LONG) == mem[12 + n + g..20 + n + g]
            && Le(|r.content|, INT) == mem[20 + n + g..24 + n + g]
            && r.content == mem[24 + n + g..mem_len]
  {
    hide Le, FromLe, Power, Strncpy;
    IntPowers();
    var n, g := NameLen(mem), GroupLen(mem);
    Uncut(mem[8..8 + n], r.name, junk.0);
    Uncut(mem[12 + n..12 + n + g], r.group_name, junk.1);
    LeWritten(mem[0..4]);
    LeWritten(mem[4..8]);
    LeWritten(mem[8 + n..12 + n]);
    LeWritten(mem[12 + n + g..20 + n + g]);
    LeWritten(mem[20 + n + g..24 + n + g]);
  }

  /** Serialising what was parsed gives back the message, when the names hold no NUL. */
  lemma {:induction false} ParseThenSerialise(mem: seq<Byte>, mem_len: int, junk: (Byte, Byte), r: Req)
    requires 0 !in r.name && 0 !in r.group_name
    requires Decoded(mem, mem_len, junk)
          == Accepted(r.msg_type, r.name + [junk.0], r.group_name + [junk.1], r.reg_token, r.content)
    ensures 0 <= mem_len <= |mem| && Encoded(r) == mem[..mem_len]
  {
    hide Le, Decoded, Power, GetLe, NameLen, GroupLen, Framed;
    Pieces(mem, mem_len, junk, r);
    Lengths(mem);
    var n, g := NameLen(mem), GroupLen(mem);
    Joined(mem, mem_len, r, n, g);
  }

  lemma {:induction false} Lengths(mem: seq<Byte>)
    requires Framed(mem)
    ensures |mem| >= 8 && GroupAt(mem) + INT <= |mem|
  {}

  lemma {:induction false} Joined(mem: seq<Byte>, mem_len: nat, r: Req, n: nat, g: nat)
    requires FIXED + n + g <= mem_len <= |mem|
    requires Le(r.msg_type, INT) == mem[0..4] && Le(|r.name|, INT) == mem[4..8] && r.name == mem[8..8 + n]
    requires Le(|r.group_name|, INT) == mem[8 + n..12 + n] && r.group_name == mem[12 + n..12 + n + g]
    requires Le(r.reg_token, LONG) == mem[12 + n + g..20 + n + g] && Le(|r.content|, INT) == mem[20 + n + g..24 + n + g]
    requires r.content == mem[24 + n + g..mem_len]
    ensures Encoded(r) == mem[..mem_len]
  {
    hide Le;
    Cut(mem[..mem_len], 4, 8, 8 + n, 12 + n, 12 + n + g, 20 + n + g, FIXED + n + g);
  }

  lemma {:induction false} Cut(b: seq<Byte>, c1: nat, c2: nat, c3: nat, c4: nat, c5: nat, c6: nat, c7: nat)
    requires c1 <= c2 <= c3 <= c4 <= c5 <= c6 <= c7 <= |b|
    ensures b == b[0..c1] + b[c1..c2] + b[c2..c3] + b[c3..c4] + b[c4..c5] + b[c5..c6] + b[c6..c7] + b[c7..]
  {}

  /** A copy without a NUL was not cut short. */
  lemma {:induction false} Uncut(src: seq<Byte>, name: seq<Byte>, junk: Byte)
    requires Strncpy(src) + [junk] == name + [junk] && 0 !in name
    ensures src == name
  {
    assert Strncpy(src) == (name + [junk])[..|name|];
    NoNul(src);
  }

  lemma {:induction false} NoNul(src: seq<Byte>)
    ensures 0 in src ==> 0 in Strncpy(src)
  {
    if 0 in src {
      if src[0] == 0 {
        assert Strncpy(src)[0] == 0;
      } else {
        assert Strncpy(src) == [src[0]] + Strncpy(src[1..]);
        NoNul(src[1..]);
      }
    }
  }

  /** The string a C reader sees: up to the first NUL, if there is one in the buffer. */
  function CString(buffer: seq<Byte>): seq<Byte> {
    if buffer == [] || buffer[0] == 0 then [] else [buffer[0]] + CString(buffer[1..])
  }

  /** The parsed name reads as the name exactly when malloc happened to leave a NUL in the byte after it. */
  lemma {:induction false} NameTerminated(name: seq<Byte>, junk: Byte)
    requires 0 !in name
    ensures CString(name + [junk]) == name <==> junk == 0
  {
    if name == [] {
      assert (name + [junk])[1..] == [];
    } else {
      assert (name + [junk])[1..] == name[1..] + [junk];
      NameTerminated(name[1..], junk);
      assert name == [name[0]] + name[1..];
    }
  }
}
