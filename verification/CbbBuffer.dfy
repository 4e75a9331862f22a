/**
  The byte builder of crypto/bytestring/cbb.c: one growing buffer in which nested elements are
  written in place. A child reserves the bytes of its length; when it is flushed the length is
  filled in, and for DER the contents are moved along if one byte was not enough.
 */
module CbbBuffer {
  import opened Bits
  import opened Options
  import opened Der

  /** An open child: where its length stands, and how many bytes are reserved for it. */
  datatype Child = Child(offset: nat, pending: nat, asn1: bool)

  /** A length of fixed width, the top byte first. */
  function Fixed(v: nat, n: nat): (s: seq<Byte>)
    ensures |s| == n
  {
    if n == 0 then [] else Fixed(v / 256, n - 1) + [v % 256]
  }

  /** It is read back if it fits. */
  lemma {:induction false} FixedRoundTrip(v: nat, n: nat)
    requires v < Pow2(8 * n)
    ensures BigEndian(Fixed(v, n)) == v
  {
    if n > 0 {
      Pow2Add(8, 8 * (n - 1));
      assert Pow2(8) == 256 by { assert Pow2(4) == 16; }
      assert v / 256 < Pow2(8 * (n - 1));
      FixedRoundTrip(v / 256, n - 1);
      assert Fixed(v, n)[..n - 1] == Fixed(v / 256, n - 1);
    }
  }

  /** The length can be written. */
  predicate Closes(child: Child, len: nat) {
    if child.asn1 then len < LENGTH_LIMIT else len < Pow2(8 * child.pending)
  }

  function Prefix(child: Child, len: nat): seq<Byte> {
    if child.asn1 then Length(len) else Fixed(len, child.pending)
  }

  function Zeros(n: nat): seq<Byte> {
    seq(n, _ => 0)
  }

  /** The buffer that holds these contents, of the top level and of each open child. */
  function Layout(contents: seq<seq<Byte>>, children: seq<Child>): seq<Byte>
    requires |contents| == |children| + 1
  {
    if children == [] then contents[0]
    else
      var n := |children|;
      Layout(contents[..n], children[..n - 1]) + Zeros(children[n - 1].pending) + contents[n]
  }

  predicate InPlace(contents: seq<seq<Byte>>, children: seq<Child>)
    requires |contents| == |children| + 1
  {
    children == [] ||
    (var n := |children|;
     && children[n - 1].offset == |Layout(contents[..n], children[..n - 1])|
     && (children[n - 1].asn1 ==> children[n - 1].pending == 1)
     && InPlace(contents[..n], children[..n - 1]))
  }

  /** The contents when the last child is closed: it becomes an element of its parent. */
  function Closed(contents: seq<seq<Byte>>, child: Child): (r: seq<seq<Byte>>)
    requires |contents| > 1
    ensures |r| == |contents| - 1
  {
    var n := |contents| - 1;
    contents[..n - 1] + [contents[n - 1] + Prefix(child, |contents[n]|) + contents[n]]
  }

  /** CBB_flush of the given level: the children behind it are closed, the innermost first; none if
      some length cannot be written. */
  function Flushed(contents: seq<seq<Byte>>, children: seq<Child>, level: nat): (r: Option<seq<seq<Byte>>>)
    requires |contents| == |children| + 1 && level <= |children|
    ensures r.Some? ==> |r.value| == level + 1
    decreases |children| - level
  {
    if level == |children| then Some(contents)
    else
      var inner := Flushed(contents, children, level + 1);
      if inner.None? || !Closes(children[level], |inner.value[level + 1]|) then None
      else Some(Closed(inner.value, children[level]))
  }

  /** A child that was added, filled and flushed is the element with these contents. */
  lemma ElementWritten(contents: seq<seq<Byte>>, children: seq<Child>, tag: Byte, body: seq<Byte>)
    requires |contents| == |children| + 1
    ensures var n := |children|;
      var r := Flushed(contents[n := contents[n] + [tag]] + [body], children + [Child(|Layout(contents, children)| + 1, 1, true)], n);
      r == if |body| < LENGTH_LIMIT then Some(contents[n := contents[n] + Tlv(tag, body)]) else None
  {
    var n := |children|;
    var child := Child(|Layout(contents, children)| + 1, 1, true);
    var c := contents[n := contents[n] + [tag]] + [body];
    assert Flushed(c, children + [child], n + 1) == Some(c);
    assert c[n] + Prefix(child, |body|) + body == contents[n] + Tlv(tag, body);
    assert c[..n] == contents[..n];
    assert contents[..n] + [contents[n] + Tlv(tag, body)] == contents[n := contents[n] + Tlv(tag, body)];
  }

  /** The same for a length of fixed width, which must be wide enough. */
  lemma PrefixedWritten(contents: seq<seq<Byte>>, children: seq<Child>, lenLen: nat, body: seq<Byte>)
    requires |contents| == |children| + 1
    ensures var n := |children|;
      var r := Flushed(contents + [body], children + [Child(|Layout(contents, children)|, lenLen, false)], n);
      r == if |body| < Pow2(8 * lenLen) then Some(contents[n := contents[n] + Fixed(|body|, lenLen) + body]) else None
  {
    hide Fixed, Layout, Pow2;
    var n := |children|;
    var child := Child(|Layout(contents, children)|, lenLen, false);
    var c := contents + [body];
    assert Flushed(c, children + [child], n + 1) == Some(c);
    assert c[..n] == contents[..n];
    assert contents[..n] + [contents[n] + Fixed(|body|, lenLen) + body] == contents[n := contents[n] + Fixed(|body|, lenLen) + body];
  }

  lemma {:induction false} LayoutLonger(contents: seq<seq<Byte>>, children: seq<Child>, more: seq<Byte>)
    requires |contents| == |children| + 1
    ensures var n := |children|; var c := contents[n := contents[n] + more];
      Layout(c, children) == Layout(contents, children) + more && (InPlace(contents, children) ==> InPlace(c, children))
  {
    var n := |children|;
    if n > 0 { assert contents[n := contents[n] + more][..n] == contents[..n]; }
  }

  lemma LayoutOpen(contents: seq<seq<Byte>>, children: seq<Child>, child: Child)
    requires |contents| == |children| + 1 && InPlace(contents, children)
    requires child.offset == |Layout(contents, children)| && (child.asn1 ==> child.pending == 1)
    ensures Layout(contents + [[]], children + [child]) == Layout(contents, children) + Zeros(child.pending)
    ensures InPlace(contents + [[]], children + [child])
  {
    var n := |children| + 1;
    assert (contents + [[]])[..n] == contents && (children + [child])[..n - 1] == children;
  }

  /** cbb_buffer_st: the bytes written so far, at the beginning of an allocation. */
  class Buffer {
    var buf: array<Byte>
    var len: nat
    var canResize: bool
    var error: bool

    predicate Valid()
      reads this
    {
      len <= buf.Length
    }

    function Data(): (d: seq<Byte>)
      reads this, buf
      requires Valid()
      ensures |d| == len
    {
      buf[..len]
    }

    constructor (buf: array<Byte>, canResize: bool)
      ensures Valid() && Data() == [] && !error && this.canResize == canResize && this.buf == buf
    {
      this.buf, len, this.canResize, error := buf, 0, canResize, false;
    }

    /** cbb_buffer_add: room for n bytes at the end. What stands there is not promised. */
    method Add(n: nat) returns (ok: bool)
      requires Valid()
      modifies `buf, `len, `error
      ensures Valid() && (ok <==> canResize || old(len) + n <= old(buf.Length)) && (buf == old(buf) || fresh(buf))
      ensures if ok
              then len == old(len) + n && Data()[..old(len)] == old(Data()) && error == old(error)
              else len == old(len) && Data() == old(Data()) && error
    {
      var newLen := len + n;
      if newLen > buf.Length {
        if !canResize {
          error := true;
          return false;
        }
        var newCap := buf.Length * 2;
        if newCap < newLen { newCap := newLen; }
        var newBuf := new Byte[newCap](_ => 0);
        forall i | 0 <= i < len { newBuf[i] := buf[i]; }
        assert newBuf[..len] == buf[..len];
        buf := newBuf;
      }
      len := newLen;
      assert Data()[..old(len)] == buf[..old(len)];
      return true;
    }

    /** memcpy. */
    method Put(at: nat, b: seq<Byte>)
      requires Valid() && at + |b| <= len
      modifies buf
      ensures Data() == old(Data()[..at]) + b + old(Data()[at + |b|..])
    {
      ghost var was := Data();
      forall i | 0 <= i < |b| { buf[at + i] := b[i]; }
      assert buf[..at] == was[..at] && buf[at..at + |b|] == b && buf[at + |b|..len] == was[at + |b|..];
      assert Data() == buf[..at] + buf[at..at + |b|] + buf[at + |b|..len];
    }

    /** memmove of all from start on, towards the end; what falls out there is lost. */
    method MoveAlong(start: nat, extra: nat)
      requires Valid() && start + extra <= len
      modifies buf
      ensures Data()[start + extra..] == old(Data()[start..len - extra]) && Data()[..start] == old(Data()[..start])
    {
      assert buf[..][..len] == Data();
      ghost var was := buf[..];
      var i := len - extra;
      while i > start
        invariant start <= i <= len - extra
        invariant forall j :: 0 <= j < i ==> buf[j] == was[j]
        invariant forall j :: i + extra <= j < len ==> buf[j] == was[j - extra]
      {
        i := i - 1;
        buf[i + extra] := buf[i];
      }
      Moved(was, buf[..], len, start, extra);
      assert buf[..][..len] == Data();
    }

    /** The loop that writes a length from its last byte on; what is left of it. */
    method PutFixed(at: nat, v: nat, n: nat) returns (left: nat)
      requires Valid() && at + n <= len
      modifies buf
      ensures Data() == old(Data()[..at]) + Fixed(v, n) + old(Data()[at + n..])
      ensures left == 0 <==> v < Pow2(8 * n)
    {
      hide Pow2;
      left := v;
      var i := n;
      ghost var was := Data();
      assert Data() == was[..at + n] + was[at + n..];
      assert Fixed(left, i) + [] == Fixed(v, n);
      ghost var done: seq<Byte> := [];
      while i > 0
        invariant 0 <= i <= n && Fixed(left, i) + done == Fixed(v, n) && |done| == n - i
        invariant left < Pow2(8 * i) <==> v < Pow2(8 * n)
        invariant Data() == was[..at + i] + done + was[at + n..]
      {
        i := i - 1;
        ghost var b := left % 256;
        buf[at + i] := left % 256;
        assert Data() == was[..at + i] + ([b] + done) + was[at + n..];
        assert Fixed(left, i + 1) + done == Fixed(left / 256, i) + ([b] + done);
        done := [b] + done;
        ByteLess(left, i);
        left := left / 256;
      }
      NoBits(left);
    }
  }

  class Cbb {
    const base: Buffer
    var children: seq<Child>  // the open child of the top level, its open child, and so on
    ghost var contents: seq<seq<Byte>>

    ghost predicate Valid()
      reads this, base, base.buf
    {
      && |contents| == |children| + 1 && base.Valid()
      && (!base.error ==> base.Data() == Layout(contents, children) && InPlace(contents, children))
    }

    /** CBB_init and CBB_init_fixed. */
    constructor (base: Buffer)
      requires base.Valid() && base.Data() == [] && !base.error
      ensures Valid() && this.base == base && children == [] && contents == [[]]
    {
      this.base, children, contents := base, [], [[]];
    }

    /** The part of CBB_flush that writes the pending length of the innermost child. */
    method Close() returns (ok: bool)
      requires Valid() && !base.error && children != []
      modifies this, base, base.buf
      ensures Valid() && base.canResize == old(base.canResize) && (base.buf == old(base.buf) || fresh(base.buf))
      ensures var n := |old(children)|;
        var child := old(children)[n - 1];
        if ok
        then !base.error && children == old(children)[..n - 1] && contents == Closed(old(contents), child)
             && Closes(child, |old(contents)[n]|)
        else base.error && children == old(children) && (base.canResize ==> !Closes(child, |old(contents)[n]|))
    {
      hide Layout, InPlace, Length, Fixed, Pow2;
      var n := |children|;
      var child := children[n - 1];
      ghost var front, body := Layout(contents[..n], children[..n - 1]), contents[n];
      LastChild(contents, children);
      var start := child.offset + child.pending;
      var size := base.len - start;
      Spliced(front, Zeros(child.pending), body);
      if child.asn1 {
        ok := CloseAsn1(child.offset, size);
      } else {
        var left := base.PutFixed(child.offset, size, child.pending);
        ok := left == 0;
      }
      if !ok {
        base.error := true;
        return;
      }
      CloseLast(contents, children);
      contents := Closed(contents, child);
      children := children[..n - 1];
    }

    /** The DER branch: one byte is reserved at offset, and size bytes of contents follow it. */
    method CloseAsn1(offset: nat, size: nat) returns (ok: bool)
      requires base.Valid() && offset + 1 + size == base.len
      modifies base, base.buf
      ensures base.Valid() && base.canResize == old(base.canResize) && (base.buf == old(base.buf) || fresh(base.buf))
      ensures ok ==> base.error == old(base.error) && size < LENGTH_LIMIT
      ensures !ok && base.canResize ==> size >= LENGTH_LIMIT
      ensures ok ==> base.Data() == old(base.Data()[..offset]) + Length(size) + old(base.Data()[offset + 1..])
    {
      hide Length, Fixed, Pow2;
      if size > 0xFFFF_FFFE { return false; }
      var lenLen, first, v := LengthForm(size);
      ghost var front, body := base.Data()[..offset], base.Data()[offset + 1..];
      var extra := lenLen - 1;
      if lenLen != 1 {
        ok := MakeRoom(offset, extra);
        if !ok { return; }
      }
      ghost var moved := base.Data();
      base.Put(offset, [first]);
      ghost var begun := base.Data();
      Replaced(moved, begun, offset, first, lenLen);
      var left := base.PutFixed(offset + 1, v, extra);
      Assembled(front, first, Fixed(v, extra), body, begun);
      return true;
    }

    /** The contents behind the byte at offset move along. */
    method MakeRoom(offset: nat, extra: nat) returns (ok: bool)
      requires base.Valid() && offset < base.len
      modifies base, base.buf
      ensures base.Valid() && base.canResize == old(base.canResize) && (base.buf == old(base.buf) || fresh(base.buf))
      ensures !ok ==> !base.canResize
      ensures ok ==>
        && base.error == old(base.error) && base.len == old(base.len) + extra
        && base.Data()[..offset] == old(base.Data()[..offset]) && base.Data()[offset + 1 + extra..] == old(base.Data()[offset + 1..])
    {
      ghost var was := base.Data();
      ok := base.Add(extra);
      if !ok { return; }
      ghost var wider := base.Data();
      Prefixes(was, wider, offset);
      base.MoveAlong(offset + 1, extra);
      Narrow(wider, base.Data(), offset);
    }

    /** How a DER length begins, and what its other bytes hold. */
    method LengthForm(size: nat) returns (lenLen: nat, first: Byte, v: nat)
      requires size < LENGTH_LIMIT
      ensures lenLen > 0 && [first] + Fixed(v, lenLen - 1) == Length(size)
    {
      LengthIsFixed(size);
      if size > 0xFF_FFFF {
        lenLen, first, v := 5, 0x84, size;
      } else if size > 0xFFFF {
        lenLen, first, v := 4, 0x83, size;
      } else if size > 0xFF {
        lenLen, first, v := 3, 0x82, size;
      } else if size > 0x7F {
        lenLen, first, v := 2, 0x81, size;
      } else {
        lenLen, first, v := 1, size, 0;
      }
    }

    /** CBB_flush: the children of the given level are closed, the innermost first. */
    method Flush(level: nat) returns (ok: bool)
      requires Valid() && level <= |children|
      modifies this, base, base.buf
      ensures Valid() && base.canResize == old(base.canResize) && (base.buf == old(base.buf) || fresh(base.buf)) && level <= |children|
      ensures old(base.error) ==> !ok
      ensures !ok ==> base.error && (!old(base.error) && base.canResize ==> Flushed(old(contents), old(children), level).None?)
      ensures ok ==> !base.error && children == old(children)[..level] && Flushed(old(contents), old(children), level) == Some(contents)
      decreases |children| - level
    {
      hide Layout, InPlace, Closes, Closed;
      if base.error { return false; }
      if level == |children| { return true; }
      ok := Flush(level + 1);
      if !ok { return; }
      ok := Close();
    }

    /** CBB_add_bytes. */
    method AddBytes(level: nat, b: seq<Byte>) returns (ok: bool)
      requires Valid() && level <= |children|
      modifies this, base, base.buf
      ensures Valid() && base.canResize == old(base.canResize) && (base.buf == old(base.buf) || fresh(base.buf)) && level <= |children|
      ensures !ok ==> base.error && (!old(base.error) && base.canResize ==> Flushed(old(contents), old(children), level).None?)
      ensures ok ==> !base.error && children == old(children)[..level]
      ensures ok ==> var f := Flushed(old(contents), old(children), level);
        f.Some? && contents == f.value[level := f.value[level] + b]
    {
      hide Layout, InPlace, Flushed;
      ok := Flush(level);
      if !ok { return; }
      var at := base.len;
      ghost var was := base.Data();
      ok := base.Add(|b|);
      if !ok { return; }
      base.Put(at, b);
      assert base.Data() == was + b;
      LayoutLonger(contents, children, b);
      contents := contents[level := contents[level] + b];
    }

    /** CBB_add_asn1 with a tag of one byte. The child is empty. */
    method AddAsn1(level: nat, tag: Byte) returns (ok: bool)
      requires Valid() && level <= |children|
      modifies this, base, base.buf
      ensures Valid() && base.canResize == old(base.canResize) && (base.buf == old(base.buf) || fresh(base.buf)) && level <= |children|
      ensures !ok ==> base.error && (!old(base.error) && base.canResize ==> Flushed(old(contents), old(children), level).None?)
      ensures ok ==> !base.error
      ensures ok ==> var f := Flushed(old(contents), old(children), level);
        f.Some? && contents == f.value[level := f.value[level] + [tag]] + [[]] &&
        children == old(children)[..level] + [Child(|Layout(f.value, old(children)[..level])| + 1, 1, true)]
    {
      hide InPlace, Flushed, Layout;
      ok := AddBytes(level, [tag]);
      if !ok { return; }
      TagAdded(Flushed(old(contents), old(children), level).value, children, tag);
      ok := Open(1, true);
    }

    /** cbb_add_length_prefixed. */
    method AddPrefixed(level: nat, lenLen: nat) returns (ok: bool)
      requires Valid() && level <= |children|
      modifies this, base, base.buf
      ensures Valid() && base.canResize == old(base.canResize) && (base.buf == old(base.buf) || fresh(base.buf)) && level <= |children|
      ensures !ok ==> base.error && (!old(base.error) && base.canResize ==> Flushed(old(contents), old(children), level).None?)
      ensures ok ==> !base.error
      ensures ok ==> var f := Flushed(old(contents), old(children), level);
        f.Some? && contents == f.value + [[]] &&
        children == old(children)[..level] + [Child(|Layout(f.value, old(children)[..level])|, lenLen, false)]
    {
      hide InPlace, Flushed, Layout;
      ok := Flush(level);
      if !ok { return; }
      ok := Open(lenLen, false);
    }

    /** Reserves the bytes of a length and opens the child behind them. */
    method Open(pending: nat, asn1: bool) returns (ok: bool)
      requires Valid() && !base.error && (asn1 ==> pending == 1)
      modifies this, base, base.buf
      ensures Valid() && base.canResize == old(base.canResize) && (base.buf == old(base.buf) || fresh(base.buf))
      ensures if ok
              then !base.error && contents == old(contents) + [[]]
                   && children == old(children) + [Child(|Layout(old(contents), old(children))|, pending, asn1)]
              else base.error && !base.canResize && children == old(children)
    {
      hide InPlace, Layout;
      var offset := base.len;
      ghost var was := base.Data();
      ok := base.Add(pending);
      if !ok { return; }
      base.Put(offset, Zeros(pending));
      assert base.Data() == was + Zeros(pending);
      LayoutOpen(contents, children, Child(offset, pending, asn1));
      contents := contents + [[]];
      children := children + [Child(offset, pending, asn1)];
    }

    /** CBB_finish: the bytes of the top level. */
    method Finish() returns (data: Option<seq<Byte>>)
      requires Valid()
      modifies this, base, base.buf
      ensures Valid()
      ensures data.Some? ==> Flushed(old(contents), old(children), 0) == Some([data.value])
      ensures data.None? && !old(base.error) && base.canResize ==> Flushed(old(contents), old(children), 0).None?
    {
      hide Flushed, InPlace;
      var ok := Flush(0);
      if !ok { return None; }
      assert contents == [contents[0]];
      return Some(base.buf[..base.len]);
    }
  }

  lemma LastChild(contents: seq<seq<Byte>>, children: seq<Child>)
    requires |contents| == |children| + 1 && children != [] && InPlace(contents, children)
    ensures var n := |children|;
      var child, front := children[n - 1], Layout(contents[..n], children[..n - 1]);
      && child.offset == |front| && (child.asn1 ==> child.pending == 1) && InPlace(contents[..n], children[..n - 1])
      && Layout(contents, children) == front + Zeros(child.pending) + contents[n]
  {
  }

  /** Closing the last child in the buffer is closing it in the contents. */
  lemma CloseLast(contents: seq<seq<Byte>>, children: seq<Child>)
    requires |contents| == |children| + 1 && children != [] && InPlace(contents, children)
    ensures var n := |children|;
      var child, c := children[n - 1], Closed(contents, children[n - 1]);
      && InPlace(c, children[..n - 1])
      && Layout(c, children[..n - 1]) == Layout(contents[..n], children[..n - 1]) + Prefix(child, |contents[n]|) + contents[n]
  {
    hide Layout, InPlace, Prefix;
    var n := |children|;
    var more := Prefix(children[n - 1], |contents[n]|) + contents[n];
    LastChild(contents, children);
    LayoutLonger(contents[..n], children[..n - 1], more);
    assert contents[n - 1] + more == contents[n - 1] + Prefix(children[n - 1], |contents[n]|) + contents[n];
    assert contents[..n][n - 1 := contents[n - 1] + more] == Closed(contents, children[n - 1]);
    var front := Layout(contents[..n], children[..n - 1]);
    assert front + more == front + Prefix(children[n - 1], |contents[n]|) + contents[n];
  }

  lemma TagAdded(contents: seq<seq<Byte>>, children: seq<Child>, tag: Byte)
    requires |contents| == |children| + 1
    ensures |Layout(contents[|children| := contents[|children|] + [tag]], children)| == |Layout(contents, children)| + 1
  {
    LayoutLonger(contents, children, [tag]);
  }

  // ------------------------------------------------------------------ slices

  lemma Moved(was: seq<Byte>, now: seq<Byte>, len: nat, start: nat, extra: nat)
    requires start + extra <= len <= |was| == |now|
    requires forall j :: 0 <= j < start ==> now[j] == was[j]
    requires forall j :: start + extra <= j < len ==> now[j] == was[j - extra]
    ensures now[..len][start + extra..] == was[..len][start..len - extra] && now[..len][..start] == was[..len][..start]
  {
  }

  lemma Spliced(a: seq<Byte>, b: seq<Byte>, c: seq<Byte>)
    ensures var s := a + b + c; s[..|a|] == a && s[|a| + |b|..] == c
  {
  }

  lemma Prefixes(was: seq<Byte>, wider: seq<Byte>, n: nat)
    requires |was| <= |wider| && wider[..|was|] == was && n < |was|
    ensures wider[..n] == was[..n] && wider[n + 1..|was|] == was[n + 1..]
  {
    assert wider[..|was|][..n] == wider[..n] && wider[..|was|][n + 1..] == wider[n + 1..|was|];
  }

  lemma Narrow(a: seq<Byte>, b: seq<Byte>, n: nat)
    requires n < |a| && n < |b| && a[..n + 1] == b[..n + 1]
    ensures a[..n] == b[..n]
  {
    assert a[..n + 1][..n] == a[..n] && b[..n + 1][..n] == b[..n];
  }

  lemma Replaced(a: seq<Byte>, b: seq<Byte>, at: nat, x: Byte, n: nat)
    requires n > 0 && at + n <= |a| && b == a[..at] + [x] + a[at + 1..]
    ensures |b| == |a| && b[..at + 1] == a[..at] + [x] && b[at + n..] == a[at + n..]
  {
  }

  lemma Assembled(front: seq<Byte>, first: Byte, digits: seq<Byte>, body: seq<Byte>, begun: seq<Byte>)
    requires |begun| == |front| + 1 + |digits| + |body| && begun[..|front| + 1] == front + [first]
    requires begun[|front| + 1 + |digits|..] == body
    ensures begun[..|front| + 1] + digits + begun[|front| + 1 + |digits|..] == front + ([first] + digits) + body
  {
  }

  lemma ByteLess(v: nat, i: nat)
    ensures v / 256 < Pow2(8 * i) <==> v < Pow2(8 * (i + 1))
  {
    Pow2Add(8 * i, 8);
    assert Pow2(8) == 256 by { assert Pow2(4) == 16; }
  }

  lemma NoBits(left: nat)
    ensures left < Pow2(8 * 0) <==> left == 0
  {
  }

  /** The length bytes behind the first one are the length. */
  lemma LengthIsFixed(size: nat)
    requires size < LENGTH_LIMIT
    ensures size <= 0x7F ==> Length(size) == [size] + Fixed(0, 0)
    ensures 0x7F < size <= 0xFF ==> Length(size) == [0x81] + Fixed(size, 1)
    ensures 0xFF < size <= 0xFFFF ==> Length(size) == [0x82] + Fixed(size, 2)
    ensures 0xFFFF < size <= 0xFF_FFFF ==> Length(size) == [0x83] + Fixed(size, 3)
    ensures 0xFF_FFFF < size ==> Length(size) == [0x84] + Fixed(size, 4)
  {
    hide Fixed;
    var a := size / 0x100;
    var b := a / 0x100;
    var c := b / 0x100;
    FixedStep(size, 0);
    FixedStep(size, 1); FixedStep(a, 0);
    FixedStep(size, 2); FixedStep(a, 1); FixedStep(b, 0);
    FixedStep(size, 3); FixedStep(a, 2); FixedStep(b, 1); FixedStep(c, 0);
    FixedNone(a); FixedNone(b); FixedNone(c); FixedNone(c / 0x100); FixedNone(0);
    assert b == size / 0x1_0000 && c == size / 0x100_0000;
  }

  lemma FixedStep(v: nat, n: nat)
    ensures Fixed(v, n + 1) == Fixed(v / 256, n) + [v % 256]
  {
  }

  lemma FixedNone(v: nat)
    ensures Fixed(v, 0) == []
  {
  }
}
