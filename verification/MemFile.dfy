/** The in-memory files a muxer writes: one grows geometrically, its twin exactly, and both are a sparse file. */
module MemFile {
  import opened Common

  const SEEK_START := 0
  const SEEK_CURRENT := 1
  const SEEK_END := 2
  const LEAST_CAPACITY := 65536

  // ----------------------------------------------------------------- the file they are

  /** What was written, zeros wherever nothing was, and where the next write goes. */
  datatype File = File(data: Bytes, pos: int)

  function Written(f: File, p: Bytes): File
    requires f.pos >= 0
  {
    var end := f.pos + |p|;
    File(
      seq(Max(|f.data|, end), i requires 0 <= i < Max(|f.data|, end) =>
        if f.pos <= i < end then p[i - f.pos] else if i < |f.data| then f.data[i] else 0),
      end)
  }

  datatype Answer = Wrote(n: nat) | At(pos: nat) | BadWhence | Negative(target: int)

  function Target(f: File, off: int, whence: int): Option<int> {
    if whence == SEEK_START then Some(off)
    else if whence == SEEK_CURRENT then Some(f.pos + off)
    else if whence == SEEK_END then Some(|f.data| + off)
    else None
  }

  /** A bad whence moves nothing; a negative target is refused, but the position has already gone there. */
  function Sought(f: File, off: int, whence: int): (File, Answer) {
    match Target(f, off, whence)
    case None => (f, BadWhence)
    case Some(pos) => (f.(pos := pos), if pos < 0 then Negative(pos) else At(pos))
  }

  // ------------------------------------------------------------------- geometric growth

  class Geometric {
    var buf: array<byte>
    var len: nat
    var pos: int
    ghost var copied: nat

    /** The spare capacity is zero; growing has copied no more than the capacity, nor is that more than twice the length. */
    ghost predicate Valid()
      reads this, buf
    {
      && len <= buf.Length
      && (forall i :: len <= i < buf.Length ==> buf[i] == 0)
      && copied <= buf.Length <= Max(LEAST_CAPACITY, 2 * len)
    }

    ghost function Model(): File
      reads this, buf
      requires Valid()
    {
      File(buf[..len], pos)
    }

    constructor ()
      ensures Valid() && fresh(buf) && Model() == File([], 0) && copied == 0
    {
      buf, len, pos, copied := new byte[0], 0, 0, 0;
    }

    /** Room for `need` bytes: within the capacity where that is enough, in a new buffer otherwise. */
    method Reserve(need: nat)
      requires Valid() && need > len
      modifies this`buf, this`len, this`copied
      ensures Valid() && len == need && (buf == old(buf) || fresh(buf))
      ensures forall i :: 0 <= i < need ==> buf[i] == if i < old(len) then old(buf[i]) else 0
    {
      if need > buf.Length {
        var capacity := 2 * buf.Length;
        if capacity < need {
          capacity := need;
        }
        if capacity < LEAST_CAPACITY {
          capacity := LEAST_CAPACITY;
        }
        var grown := new byte[capacity](_ => 0);
        forall i | 0 <= i < len {
          grown[i] := buf[i];
        }
        copied := copied + len;
        buf := grown;
      }
      len := need;
    }

    method Write(p: Bytes) returns (answer: Answer)
      requires Valid() && pos >= 0
      modifies this, buf
      ensures Valid() && (buf == old(buf) || fresh(buf))
      ensures Model() == Written(old(Model()), p) && answer == Wrote(|p|)
    {
      ghost var was := Model();
      if pos + |p| > len {
        Reserve(pos + |p|);
      }
      forall i | 0 <= i < |p| {
        buf[pos + i] := p[i];
      }
      pos := pos + |p|;
      assert Model().data == Written(was, p).data;
      answer := Wrote(|p|);
    }

    method Seek(off: int, whence: int) returns (answer: Answer)
      requires Valid()
      modifies this`pos
      ensures Valid() && (Model(), answer) == Sought(old(Model()), off, whence)
    {
      if whence == SEEK_START {
        pos := off;
      } else if whence == SEEK_CURRENT {
        pos := pos + off;
      } else if whence == SEEK_END {
        pos := len + off;
      } else {
        return BadWhence;
      }
      answer := if pos < 0 then Negative(pos) else At(pos);
    }
  }

  // ----------------------------------------------------------------------- exact growth

  class Exact {
    var buf: array<byte>
    var pos: int

    ghost function Model(): File
      reads this, buf
    {
      File(buf[..], pos)
    }

    constructor ()
      ensures fresh(buf) && Model() == File([], 0)
    {
      buf, pos := new byte[0], 0;
    }

    method Write(p: Bytes) returns (answer: Answer)
      requires pos >= 0
      modifies this, buf
      ensures buf == old(buf) || fresh(buf)
      ensures Model() == Written(old(Model()), p) && answer == Wrote(|p|)
    {
      ghost var was := Model();
      var need := pos + |p|;
      if need > buf.Length {
        var grown := new byte[need](_ => 0);
        forall i | 0 <= i < buf.Length {
          grown[i] := buf[i];
        }
        buf := grown;
      }
      forall i | 0 <= i < |p| {
        buf[pos + i] := p[i];
      }
      pos := need;
      assert Model().data == Written(was, p).data;
      answer := Wrote(|p|);
    }

    method Seek(off: int, whence: int) returns (answer: Answer)
      modifies this`pos
      ensures (Model(), answer) == Sought(old(Model()), off, whence)
    {
      if whence == SEEK_START {
        pos := off;
      } else if whence == SEEK_CURRENT {
        pos := pos + off;
      } else if whence == SEEK_END {
        pos := buf.Length + off;
      } else {
        return BadWhence;
      }
      answer := if pos < 0 then Negative(pos) else At(pos);
    }
  }

  // -------------------------------------------------------------------------- whole runs

  datatype Op = Write(p: Bytes) | Seek(off: int, whence: int)

  function Step(f: File, op: Op): (File, Answer)
    requires op.Write? ==> f.pos >= 0
  {
    match op
    case Write(p) => (Written(f, p), Wrote(|p|))
    case Seek(off, whence) => Sought(f, off, whence)
  }

  /** A run without a write behind the start of the file, where the source has no answer to give. */
  ghost predicate Safe(f: File, ops: seq<Op>)
    decreases |ops|
  {
    ops == [] || ((ops[0].Write? ==> f.pos >= 0) && Safe(Step(f, ops[0]).0, ops[1..]))
  }

  ghost function Run(f: File, ops: seq<Op>): (File, seq<Answer>)
    requires Safe(f, ops)
    decreases |ops|
  {
    if ops == [] then (f, [])
    else
      var next := Step(f, ops[0]);
      var rest := Run(next.0, ops[1..]);
      (rest.0, [next.1] + rest.1)
  }

  /** No write follows a seek refused for its negative target. */
  ghost predicate Heeded(f: File, ops: seq<Op>)
    decreases |ops|
  {
    ops == [] ||
    match ops[0]
    case Write(p) => f.pos >= 0 ==> Heeded(Written(f, p), ops[1..])
    case Seek(off, whence) =>
      var next := Sought(f, off, whence);
      (next.1.Negative? ==> OnlySeeks(ops)) && Heeded(next.0, ops[1..])
  }

  ghost predicate OnlySeeks(ops: seq<Op>) { forall i :: 0 <= i < |ops| ==> ops[i].Seek? }

  lemma {:induction false} SeeksAreSafe(f: File, ops: seq<Op>)
    requires OnlySeeks(ops)
    ensures Safe(f, ops)
    decreases |ops|
  {
    if ops != [] {
      SeeksAreSafe(Step(f, ops[0]).0, ops[1..]);
    }
  }

  lemma {:induction false} HeededIsSafe(f: File, ops: seq<Op>)
    requires f.pos >= 0 && Heeded(f, ops)
    ensures Safe(f, ops)
    decreases |ops|
  {
    if ops != [] {
      var next := Step(f, ops[0]);
      if next.1.Negative? {
        SeeksAreSafe(next.0, ops[1..]);
      } else {
        HeededIsSafe(next.0, ops[1..]);
      }
    }
  }

  /** Both files answer every run alike, and end as the same file; the growing one has copied little for it. */
  method RunBoth(ops: seq<Op>) returns (g: Geometric, e: Exact, answers: seq<Answer>, answers': seq<Answer>)
    requires Safe(File([], 0), ops)
    ensures fresh(g) && fresh(e) && g.Valid() && g.Model() == e.Model()
    ensures (g.Model(), answers) == (e.Model(), answers') == Run(File([], 0), ops)
    ensures g.copied <= Max(LEAST_CAPACITY, 2 * |g.Model().data|)
  {
    hide Written, Sought;
    g := new Geometric();
    e := new Exact();
    answers, answers' := [], [];
    ghost var whole := Run(File([], 0), ops);
    assert ops[0..] == ops && [] + whole.1 == whole.1;
    for i := 0 to |ops|
      invariant fresh(g) && fresh(e) && fresh(g.buf) && fresh(e.buf) && g.buf != e.buf && g.Valid()
      invariant g.Model() == e.Model() && answers == answers'
      invariant Safe(g.Model(), ops[i..])
      invariant whole == (Run(g.Model(), ops[i..]).0, answers + Run(g.Model(), ops[i..]).1)
    {
      assert ops[i..][0] == ops[i] && ops[i..][1..] == ops[i + 1..];
      ghost var was := g.Model();
      ghost var next := Step(was, ops[i]);
      var a, a';
      match ops[i] {
        case Write(p) =>
          a := g.Write(p);
          a' := e.Write(p);
        case Seek(off, whence) =>
          a := g.Seek(off, whence);
          a' := e.Seek(off, whence);
      }
      Assoc(answers, [a], Run(next.0, ops[i + 1..]).1);
      answers, answers' := answers + [a], answers' + [a'];
    }
    assert answers + [] == answers;
  }

  // ---------------------------------------------------------------- what such a file does

  /** A write is there to be read, and everything else is as it was, with zeros in any gap. */
  lemma WriteReadsBack(f: File, p: Bytes)
    requires f.pos >= 0
    ensures
      var g := Written(f, p);
      && g.pos == f.pos + |p| && |g.data| == Max(|f.data|, g.pos)
      && g.data[f.pos..g.pos] == p
      && (forall i :: 0 <= i < |f.data| && !(f.pos <= i < g.pos) ==> g.data[i] == f.data[i])
      && (forall i :: |f.data| <= i < f.pos ==> g.data[i] == 0)
  {
  }

  /** Seeks from the position add up, seeks from the end count from what is written, and both land where a seek from the start would. */
  lemma SeeksAgree(f: File, a: int, b: int)
    ensures Sought(Sought(f, a, SEEK_START).0, b, SEEK_CURRENT) == Sought(f, a + b, SEEK_START)
    ensures Sought(Sought(f, a, SEEK_CURRENT).0, b, SEEK_CURRENT) == Sought(f, a + b, SEEK_CURRENT)
    ensures Sought(f, a, SEEK_END) == Sought(f, |f.data| + a, SEEK_START)
    ensures a >= 0 ==> Sought(f, a, SEEK_START) == (File(f.data, a), At(a))
    ensures a < 0 ==> Sought(f, a, SEEK_START) == (File(f.data, a), Negative(a))
    ensures f.pos >= 0 ==> Sought(f, 0, SEEK_CURRENT) == (f, At(f.pos))
  {
  }

  /** From the end a write appends; a whence that is none of the three moves nothing. */
  lemma AppendsAtEnd(f: File, p: Bytes, off: int, whence: int)
    ensures Written(Sought(f, 0, SEEK_END).0, p) == File(f.data + p, |f.data| + |p|)
    ensures whence !in {0, 1, 2} ==> Sought(f, off, whence) == (f, BadWhence)
  {
    assert Written(Sought(f, 0, SEEK_END).0, p).data == f.data + p;
  }

  /** Writing in pieces is writing at once. */
  lemma WritesJoin(f: File, p: Bytes, q: Bytes)
    requires f.pos >= 0
    ensures Written(Written(f, p), q) == Written(f, p + q)
  {
    assert Written(Written(f, p), q).data == Written(f, p + q).data;
  }

  /** A header written over once its sizes are known leaves the body as it was. */
  lemma BackPatch(head: Bytes, body: Bytes, patched: Bytes)
    requires |head| == |patched|
    ensures
      var f := Written(Written(File([], 0), head), body);
      && Sought(f, 0, SEEK_START) == (f.(pos := 0), At(0))
      && Written(f.(pos := 0), patched).data == patched + body
  {
    var f := Written(Written(File([], 0), head), body);
    assert f.data == head + body;
    assert Written(f.(pos := 0), patched).data == patched + body;
  }

  /** Writing nothing past the end still fills the gap with zeros, and changes nothing elsewhere. */
  lemma EmptyWriteExtends(f: File)
    requires f.pos >= 0
    ensures Written(f, []).pos == f.pos && f.data <= Written(f, []).data
    ensures |Written(f, []).data| == Max(|f.data|, f.pos)
    ensures forall i :: |f.data| <= i < |Written(f, []).data| ==> Written(f, []).data[i] == 0
  {
    assert Written(f, []).data[..|f.data|] == f.data;
  }
}
