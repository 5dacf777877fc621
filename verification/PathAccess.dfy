/**
  Reading and writing nested properties by path, such as `a.b[2].c`. Reading fails on anything that
  is missing; writing creates the dictionaries that are missing on the way.
*/
module PathAccess {
  import opened Decimals
  import opened Names

  /** Nested properties: trees of dictionaries and lists. */
  datatype Value = Leaf(x: int) | List(items: seq<Value>) | Dict(entries: map<string, Value>)

  // ---------- paths and segments ----------

  /** Splits at every dot. */
  function Split(s: string): (parts: seq<string>)
    ensures parts != []
  {
    if s == "" then [""]
    else
      var rest := Split(s[1..]);
      if s[0] == '.' then [""] + rest else [[s[0]] + rest[0]] + rest[1..]
  }

  function Join(parts: seq<string>): string {
    if parts == [] then "" else if |parts| == 1 then parts[0] else parts[0] + "." + Join(parts[1..])
  }

  lemma {:induction false} SplitPrefix(a: string, s: string)
    requires '.' !in a
    ensures Split(a + "." + s) == [a] + Split(s)
    ensures Split(a) == [a]
  {
    if a == "" {
      assert a + "." + s == "." + s;
      assert ("." + s)[1..] == s;
    } else {
      SplitPrefix(a[1..], s);
      assert (a + "." + s)[1..] == a[1..] + "." + s;
      assert a[0] in a && [a[0]] + a[1..] == a;
    }
  }

  /** Splitting undoes joining, as long as no part contains a dot. */
  lemma {:induction false} SplitJoin(parts: seq<string>)
    requires parts != [] && forall p :: p in parts ==> '.' !in p
    ensures Split(Join(parts)) == parts
  {
    SplitPrefix(parts[0], Join(parts[1..]));
    if |parts| > 1 {
      SplitJoin(parts[1..]);
      assert parts == [parts[0]] + parts[1..];
    }
  }

  lemma {:induction false} SplitDotFree(s: string)
    ensures forall p :: p in Split(s) ==> '.' !in p
  {
    if s != "" {
      SplitDotFree(s[1..]);
    }
  }

  /** The end of the run of digits that starts at `i`. */
  function DigitsEnd(s: string, i: nat): (e: nat)
    requires i <= |s|
    ensures i <= e <= |s| && forall k :: i <= k < e ==> IsDigit(s[k])
    decreases |s| - i
  {
    if i < |s| && IsDigit(s[i]) then DigitsEnd(s, i + 1) else i
  }

  function Number(s: string): nat
    requires forall k :: 0 <= k < |s| ==> IsDigit(s[k])
  {
    if s == "" then 0
    else
      assert IsDigit(s[|s| - 1]);
      10 * Number(s[..|s| - 1]) + (s[|s| - 1] as int - '0' as int)
  }

  /** An index in brackets opens at `p`, after a name of at least one character. */
  predicate IndexAt(s: string, p: nat) {
    && 1 <= p < |s| && s[p] == '[' && '\n' !in s[..p]
    && var e := DigitsEnd(s, p + 1);
    p + 1 < e < |s| && s[e] == ']'
  }

  /** The last such place up to `p`. */
  function LastIndex(s: string, p: nat): (r: Option<nat>)
    ensures r.Some? ==> IndexAt(s, r.value)
  {
    if IndexAt(s, p) then Some(p) else if p == 0 then None else LastIndex(s, p - 1)
  }

  /** What a segment selects: a key, or an element of the list under a key. */
  datatype Selector = Selector(name: string, index: Option<nat>)

  /** The segment matched from its start against a name, an opening bracket, digits and a closing bracket. */
  function Select(seg: string): (r: Selector)
    ensures r.index.None? ==> r.name == seg
    ensures r.index.Some? ==> |r.name| < |seg|
  {
    var p := LastIndex(seg, |seg|);
    if p.None? then Selector(seg, None)
    else Selector(seg[..p.value], Some(Number(seg[p.value + 1..DigitsEnd(seg, p.value + 1)])))
  }

  // ---------- indices ----------

  lemma {:induction false} NumberOfDecimal(n: nat)
    ensures Number(Decimal(n)) == n
  {
    if n < 10 {
      assert Decimal(n)[..0] == "";
    } else {
      NumberOfDecimal(n / 10);
      assert Decimal(n)[..|Decimal(n)| - 1] == Decimal(n / 10);
    }
  }

  lemma {:induction false} DigitsEndAt(s: string, i: nat, e: nat)
    requires i <= e < |s| && (forall k :: i <= k < e ==> IsDigit(s[k])) && !IsDigit(s[e])
    ensures DigitsEnd(s, i) == e
    decreases e - i
  {
    if i < e {
      DigitsEndAt(s, i + 1, e);
    }
  }

  lemma {:induction false} LastIndexAt(s: string, p: nat, q: nat)
    requires q <= p && IndexAt(s, q) && forall k :: q < k <= p ==> !IndexAt(s, k)
    ensures LastIndex(s, p) == Some(q)
    decreases p
  {
    if q < p {
      LastIndexAt(s, p - 1, q);
    }
  }

  /** From `p` on there is a number in brackets, up to `e`, after a name on one line. */
  ghost predicate Indexes(seg: string, p: int, e: int) {
    && 1 <= p && p + 1 < e < |seg| && seg[p] == '[' && seg[e] == ']'
    && (forall k :: p < k < e ==> IsDigit(seg[k])) && forall k :: 0 <= k < p ==> seg[k] != '\n'
  }

  lemma IndexAtExactly(seg: string, p: nat)
    ensures IndexAt(seg, p) <==> exists e :: Indexes(seg, p, e)
    ensures forall e :: Indexes(seg, p, e) ==> e == DigitsEnd(seg, p + 1)
  {
    forall e | Indexes(seg, p, e) ensures e == DigitsEnd(seg, p + 1) {
      DigitsEndAt(seg, p + 1, e);
    }
    if IndexAt(seg, p) {
      assert Indexes(seg, p, DigitsEnd(seg, p + 1));
    }
  }

  lemma {:induction false} LastIndexExactly(seg: string, p: nat)
    ensures LastIndex(seg, p).None? ==> forall q: nat :: q <= p ==> !IndexAt(seg, q)
    ensures LastIndex(seg, p).Some? ==>
      LastIndex(seg, p).value <= p && forall q: nat :: LastIndex(seg, p).value < q <= p ==> !IndexAt(seg, q)
    decreases p
  {
    if !IndexAt(seg, p) && p > 0 {
      LastIndexExactly(seg, p - 1);
    }
  }

  /**
    A segment is a plain key if there is no index in it; else it selects by the last one, which need not be at
    the end.
  */
  lemma SelectsExactly(seg: string)
    ensures Select(seg).index.None? <==> forall p, e :: !Indexes(seg, p, e)
    ensures forall p, e :: Indexes(seg, p, e) && (forall q, f :: Indexes(seg, q, f) ==> q <= p) ==>
      Select(seg) == Selector(seg[..p], Some(Number(seg[p + 1..e])))
  {
    var last := LastIndex(seg, |seg|);
    LastIndexExactly(seg, |seg|);
    forall p, e | Indexes(seg, p, e) ensures last.Some? && p <= last.value {
      IndexAtExactly(seg, p);
    }
    if last.Some? {
      var q, f := last.value, DigitsEnd(seg, last.value + 1);
      IndexAtExactly(seg, q);
      assert Indexes(seg, q, f);
      forall p, e | Indexes(seg, p, e) && q <= p ensures p == q && e == f {
        IndexAtExactly(seg, p);
      }
    }
  }

  /** A name with a number in brackets selects the element with that number from what the name stands for. */
  lemma SelectIndexed(name: string, n: nat)
    requires name != "" && '\n' !in name
    ensures Select(name + "[" + Decimal(n) + "]") == Selector(name, Some(n))
  {
    var digits, p := Decimal(n), |name|;
    var seg := name + "[" + digits + "]";
    var e := p + 1 + |digits|;
    assert seg[..p] == name && seg[p] == '[' && seg[e] == ']' && |seg| == e + 1;
    assert forall k :: p + 1 <= k < e ==> seg[k] == digits[k - p - 1];
    DigitsEndAt(seg, p + 1, e);
    LastIndexAt(seg, |seg|, p);
    assert seg[p + 1..e] == digits;
    NumberOfDecimal(n);
  }

  // ---------- reading and writing on values ----------

  /** The value that the selector picks. */
  function Pick(v: Value, sel: Selector): Option<Value> {
    if !v.Dict? || sel.name !in v.entries then None
    else if sel.index.None? then Some(v.entries[sel.name])
    else
      var l := v.entries[sel.name];
      if l.List? && sel.index.value < |l.items| then Some(l.items[sel.index.value]) else None
  }

  /** `v` with the picked value replaced, or added under a new key. */
  function Put(v: Value, sel: Selector, x: Value): Value
    requires v.Dict? && (sel.index.Some? ==> Pick(v, sel).Some?)
  {
    if sel.index.None? then Dict(v.entries[sel.name := x])
    else Dict(v.entries[sel.name := List(v.entries[sel.name].items[sel.index.value := x])])
  }

  /** Reads along a path. */
  function Read(v: Value, segs: seq<string>): Option<Value> {
    if segs == [] then Some(v)
    else
      var x := Pick(v, Select(segs[0]));
      if x.None? then None else Read(x.value, segs[1..])
  }

  /** Where writing goes on along a segment: a missing key counts as an empty dictionary. */
  function Enter(v: Value, seg: string): Option<Value> {
    var sel := Select(seg);
    if v.Dict? && sel.index.None? && seg !in v.entries then Some(Dict(map[])) else Pick(v, sel)
  }

  /**
    Writes along a path; also says whether that was possible. The last segment is always a key, even
    if it looks like an index. Dictionaries created before a failure stay.
  */
  function Write(v: Value, segs: seq<string>, x: Value): (Value, bool)
    requires segs != []
    decreases |segs|
  {
    if |segs| == 1 then
      if v.Dict? then (Dict(v.entries[segs[0] := x]), true) else (v, false)
    else
      var sub := Enter(v, segs[0]);
      if sub.None? then (v, false)
      else
        var (sub', ok) := Write(sub.value, segs[1..], x);
        (Put(v, Select(segs[0]), sub'), ok)
  }

  /** So an index reads the element with that number, whatever else is there. */
  lemma IndexReads(v: Value, name: string, n: nat)
    requires name != "" && '\n' !in name && v.Dict? && name in v.entries
    ensures Read(v, [name + "[" + Decimal(n) + "]"]) ==
      if v.entries[name].List? && n < |v.entries[name].items| then Some(v.entries[name].items[n]) else None
  {
    SelectIndexed(name, n);
    var seg := name + "[" + Decimal(n) + "]";
    assert [seg][1..] == [];
  }

  lemma PickPut(v: Value, sel: Selector, x: Value)
    requires v.Dict? && (sel.index.Some? ==> Pick(v, sel).Some?)
    ensures Pick(Put(v, sel, x), sel) == Some(x)
    ensures Put(v, sel, x).Dict?
    ensures forall y :: Put(Put(v, sel, x), sel, y) == Put(v, sel, y)
  {
    forall y
      ensures Put(Put(v, sel, x), sel, y) == Put(v, sel, y)
    {
      assert v.entries[sel.name := y][sel.name := y] == v.entries[sel.name := y];
      if sel.index.Some? {
        var items := v.entries[sel.name].items;
        assert items[sel.index.value := x][sel.index.value := y] == items[sel.index.value := y];
        var l := List(items[sel.index.value := y]);
        assert v.entries[sel.name := List(items[sel.index.value := x])][sel.name := l] == v.entries[sel.name := l];
      } else {
        assert v.entries[sel.name := x][sel.name := y] == v.entries[sel.name := y];
      }
    }
  }

  /** After a successful write, reading the same path gives the value, unless the last segment looks like an index. */
  lemma {:induction false} ReadWritten(v: Value, segs: seq<string>, x: Value)
    requires segs != [] && Write(v, segs, x).1 && Select(segs[|segs| - 1]).index.None?
    ensures Read(Write(v, segs, x).0, segs) == Some(x)
    decreases |segs|
  {
    if |segs| > 1 {
      var sub := Enter(v, segs[0]);
      ReadWritten(sub.value, segs[1..], x);
      PickPut(v, Select(segs[0]), Write(sub.value, segs[1..], x).0);
    }
  }

  /** A last segment that looks like an index is written as a key, so reading the path does not see it. */
  lemma {:induction false} IndexedWriteUnseen(v: Value, segs: seq<string>, x: Value)
    requires segs != [] && Write(v, segs, x).1 && Select(segs[|segs| - 1]).index.Some?
    ensures Read(Write(v, segs, x).0, segs) == Read(v, segs)
    decreases |segs|
  {
    if |segs| > 1 {
      var sub := Enter(v, segs[0]);
      IndexedWriteUnseen(sub.value, segs[1..], x);
      PickPut(v, Select(segs[0]), Write(sub.value, segs[1..], x).0);
      EnterReads(v, segs[0], segs[1..]);
      assert [segs[0]] + segs[1..] == segs;
    }
  }

  /**
    So reading back what was written works exactly for last segments without an index, or if the value
    was there already.
  */
  lemma ReadBackExactly(v: Value, segs: seq<string>, x: Value)
    requires segs != [] && Write(v, segs, x).1
    ensures Read(Write(v, segs, x).0, segs) == Some(x) <==>
              Select(segs[|segs| - 1]).index.None? || Read(v, segs) == Some(x)
  {
    if Select(segs[|segs| - 1]).index.None? {
      ReadWritten(v, segs, x);
    } else {
      IndexedWriteUnseen(v, segs, x);
    }
  }

  /** A second write to the same path wins. */
  lemma {:induction false} LastWriteWins(v: Value, segs: seq<string>, x: Value, y: Value)
    requires segs != [] && Write(v, segs, x).1
    ensures Write(Write(v, segs, x).0, segs, y) == Write(v, segs, y)
    decreases |segs|
  {
    if |segs| == 1 {
      assert v.entries[segs[0] := x][segs[0] := y] == v.entries[segs[0] := y];
    } else {
      var sub := Enter(v, segs[0]).value;
      LastWriteWins(sub, segs[1..], x, y);
      PickPut(v, Select(segs[0]), Write(sub, segs[1..], x).0);
    }
  }

  /** The selectors pick things that do not overlap. */
  predicate Apart(a: Selector, b: Selector) {
    a.name != b.name || (a.index.Some? && b.index.Some? && a.index != b.index)
  }

  /** What writing selects at a segment. */
  function WriteSelector(segs: seq<string>, k: nat): Selector
    requires k < |segs|
  {
    if k == |segs| - 1 then Selector(segs[k], None) else Select(segs[k])
  }

  /** The read path leaves the written path at some segment. */
  ghost predicate Diverge(written: seq<string>, read: seq<string>) {
    exists k :: 0 <= k < |written| && k < |read| && written[..k] == read[..k]
      && Apart(WriteSelector(written, k), Select(read[k]))
  }

  lemma PickApart(v: Value, a: Selector, b: Selector, x: Value)
    requires v.Dict? && (a.index.Some? ==> Pick(v, a).Some?) && Apart(a, b)
    ensures Pick(Put(v, a, x), b) == Pick(v, b)
  {
  }

  lemma EnterReads(v: Value, seg: string, rest: seq<string>)
    requires Enter(v, seg).Some? && rest != []
    ensures Read(Enter(v, seg).value, rest) == Read(v, [seg] + rest)
  {
    assert ([seg] + rest)[1..] == rest;
  }

  /** Leaving the written path further down means leaving the rest of it. */
  lemma DivergeBelow(written: seq<string>, read: seq<string>)
    requires |written| > 1 && Diverge(written, read)
    requires read == [] || !Apart(WriteSelector(written, 0), Select(read[0]))
    ensures |read| > 1 && written[0] == read[0] && Diverge(written[1..], read[1..])
  {
    var k :| 0 <= k < |written| && k < |read| && written[..k] == read[..k] &&
      Apart(WriteSelector(written, k), Select(read[k]));
    assert written[0] == written[..k][0] == read[..k][0] == read[0];
    assert written[1..][..k - 1] == written[..k][1..] == read[..k][1..] == read[1..][..k - 1];
    assert WriteSelector(written[1..], k - 1) == WriteSelector(written, k);
    assert Apart(WriteSelector(written[1..], k - 1), Select(read[1..][k - 1]));
  }

  lemma PutReads(v: Value, seg: string, rest: seq<string>, sub: Value)
    requires Enter(v, seg).Some?
    ensures Read(Put(v, Select(seg), sub), [seg] + rest) == Read(sub, rest)
  {
    PickPut(v, Select(seg), sub);
    assert ([seg] + rest)[1..] == rest;
  }

  lemma ApartUnchanged(v: Value, written: seq<string>, read: seq<string>, x: Value)
    requires written != [] && read != [] && Apart(WriteSelector(written, 0), Select(read[0]))
    ensures Read(Write(v, written, x).0, read) == Read(v, read)
  {
    if |written| == 1 {
      if v.Dict? {
        PickApart(v, Selector(written[0], None), Select(read[0]), x);
      }
    } else if Enter(v, written[0]).Some? {
      PickApart(v, Select(written[0]), Select(read[0]), Write(Enter(v, written[0]).value, written[1..], x).0);
    }
  }

  /** Writing, successful or not, does not change what is read along a path that diverges. */
  lemma {:induction false} DivergingUnchanged(v: Value, written: seq<string>, read: seq<string>, x: Value)
    requires written != [] && Diverge(written, read)
    ensures Read(Write(v, written, x).0, read) == Read(v, read)
    decreases |written|
  {
    if read != [] && Apart(WriteSelector(written, 0), Select(read[0])) {
      ApartUnchanged(v, written, read, x);
    } else if |written| > 1 && Enter(v, written[0]).Some? {
      var sub := Enter(v, written[0]).value;
      DivergeBelow(written, read);
      DivergingUnchanged(sub, written[1..], read[1..], x);
      assert [written[0]] + read[1..] == read;
      EnterReads(v, written[0], read[1..]);
      PutReads(v, written[0], read[1..], Write(sub, written[1..], x).0);
    }
  }

  /** An empty dictionary, or one that holds nothing but such a dictionary. */
  predicate EmptyChain(v: Value) {
    v.Dict? && (v.entries == map[] || (|v.entries| == 1 && forall k | k in v.entries :: EmptyChain(v.entries[k])))
  }

  /** `b` is `a`, but for empty dictionaries added somewhere under a new key. */
  ghost predicate Padded(a: Value, b: Value)
    decreases a
  {
    || a == b
    || (a.Dict? && b.Dict? && exists k ::
          && k in b.entries && b.entries == a.entries[k := b.entries[k]]
          && (if k in a.entries then Padded(a.entries[k], b.entries[k]) else EmptyChain(b.entries[k])))
    || (a.List? && b.List? && exists i ::
          && 0 <= i < |a.items| && i < |b.items| && b.items == a.items[i := b.items[i]] &&
            Padded(a.items[i], b.items[i]))
  }

  lemma {:induction false} OneKeyChain(k: string, v: Value)
    requires EmptyChain(v)
    ensures EmptyChain(Dict(map[k := v]))
  {
  }

  /** Writing into an empty dictionary fails, if it fails, after creating empty dictionaries only. */
  lemma {:induction false} FailureInEmpty(segs: seq<string>, x: Value)
    requires segs != [] && !Write(Dict(map[]), segs, x).1
    ensures EmptyChain(Write(Dict(map[]), segs, x).0)
    decreases |segs|
  {
    if |segs| > 1 && Enter(Dict(map[]), segs[0]).Some? {
      FailureInEmpty(segs[1..], x);
      OneKeyChain(segs[0], Write(Dict(map[]), segs[1..], x).0);
    }
  }

  lemma PaddedKey(a: Value, k: string, y: Value)
    requires a.Dict? && if k in a.entries then Padded(a.entries[k], y) else EmptyChain(y)
    ensures Padded(a, Dict(a.entries[k := y]))
  {
    var b := Dict(a.entries[k := y]);
    assert b.entries == a.entries[k := b.entries[k]];
  }

  lemma PaddedItem(a: Value, i: nat, y: Value)
    requires a.List? && i < |a.items| && Padded(a.items[i], y)
    ensures Padded(a, List(a.items[i := y]))
  {
    var b := List(a.items[i := y]);
    assert b.items == a.items[i := b.items[i]];
  }

  /** A failing write changes nothing, but for empty dictionaries on the way. */
  lemma {:induction false} FailurePads(v: Value, segs: seq<string>, x: Value)
    requires segs != [] && !Write(v, segs, x).1
    ensures Padded(v, Write(v, segs, x).0)
    decreases |segs|
  {
    if |segs| > 1 && Enter(v, segs[0]).Some? {
      var sel := Select(segs[0]);
      var sub := Enter(v, segs[0]).value;
      var sub' := Write(sub, segs[1..], x).0;
      if sel.index.Some? {
        FailurePads(sub, segs[1..], x);
        PaddedItem(v.entries[sel.name], sel.index.value, sub');
        PaddedKey(v, sel.name, List(v.entries[sel.name].items[sel.index.value := sub']));
      } else {
        if segs[0] in v.entries {
          FailurePads(sub, segs[1..], x);
        } else {
          FailureInEmpty(segs[1..], x);
        }
        PaddedKey(v, segs[0], sub');
      }
    }
  }

  // ---------- the access object ----------

  /** `v` with what is read along the path replaced. */
  function Replace(v: Value, segs: seq<string>, x: Value): Value
    requires Read(v, segs).Some?
    decreases |segs|
  {
    if segs == [] then x
    else Put(v, Select(segs[0]), Replace(Pick(v, Select(segs[0])).value, segs[1..], x))
  }

  lemma {:induction false} ReadMore(v: Value, segs: seq<string>, seg: string)
    requires Read(v, segs).Some?
    ensures Read(v, segs + [seg]) == Pick(Read(v, segs).value, Select(seg))
    decreases |segs|
  {
    if segs == [] {
      assert ([] + [seg])[1..] == [];
    } else {
      assert (segs + [seg])[1..] == segs[1..] + [seg];
      ReadMore(Pick(v, Select(segs[0])).value, segs[1..], seg);
    }
  }

  lemma {:induction false} ReadReplaced(v: Value, segs: seq<string>, x: Value)
    requires Read(v, segs).Some?
    ensures Read(Replace(v, segs, x), segs) == Some(x)
    decreases |segs|
  {
    if segs != [] {
      var sel := Select(segs[0]);
      var sub := Pick(v, sel).value;
      ReadReplaced(sub, segs[1..], x);
      PickPut(v, sel, Replace(sub, segs[1..], x));
    }
  }

  /** Writing is the same from any point on the way that can be read. */
  lemma {:induction false} WriteThrough(v: Value, before: seq<string>, after: seq<string>, x: Value)
    requires Read(v, before).Some? && after != []
    ensures var sub := Read(v, before).value;
            Write(v, before + after, x) == (Replace(v, before, Write(sub, after, x).0), Write(sub, after, x).1)
    decreases |before|
  {
    if before == [] {
      assert before + after == after;
    } else {
      assert (before + after)[1..] == before[1..] + after;
      WriteThrough(Pick(v, Select(before[0])).value, before[1..], after, x);
    }
  }

  lemma {:induction false} ReplaceSame(v: Value, segs: seq<string>)
    requires Read(v, segs).Some?
    ensures Replace(v, segs, Read(v, segs).value) == v
    decreases |segs|
  {
    if segs != [] {
      var sel := Select(segs[0]);
      ReplaceSame(Pick(v, sel).value, segs[1..]);
      if sel.index.Some? {
        var l := v.entries[sel.name];
        assert l.items[sel.index.value := l.items[sel.index.value]] == l.items;
        assert v.entries[sel.name := List(l.items)] == v.entries;
      } else {
        assert v.entries[sel.name := v.entries[sel.name]] == v.entries;
      }
    }
  }

  lemma {:induction false} ReplaceTwice(v: Value, segs: seq<string>, x: Value, y: Value)
    requires Read(v, segs).Some?
    ensures Read(Replace(v, segs, x), segs).Some? && Replace(Replace(v, segs, x), segs, y) == Replace(v, segs, y)
    decreases |segs|
  {
    ReadReplaced(v, segs, x);
    if segs != [] {
      var sel := Select(segs[0]);
      var sub := Pick(v, sel).value;
      ReplaceTwice(sub, segs[1..], x, y);
      PickPut(v, sel, Replace(sub, segs[1..], x));
    }
  }

  /** Creating the next missing dictionary does not change where the write ends up. */
  lemma CreateStep(v: Value, before: seq<string>, after: seq<string>, x: Value)
    requires Read(v, before).Some? && |after| > 1
    requires var sub := Read(v, before).value;
             sub.Dict? && Select(after[0]).index.None? && after[0] !in sub.entries
    ensures var made := Replace(v, before, Dict(Read(v, before).value.entries[after[0] := Dict(map[])]));
            Write(made, before + after, x) == Write(v, before + after, x)
            && Read(made, before) == Some(Dict(Read(v, before).value.entries[after[0] := Dict(map[])]))
  {
    var sub := Read(v, before).value;
    var sub' := Dict(sub.entries[after[0] := Dict(map[])]);
    var made := Replace(v, before, sub');
    ReadReplaced(v, before, sub');
    WriteThrough(v, before, after, x);
    WriteThrough(made, before, after, x);
    var inner := Write(Dict(map[]), after[1..], x);
    assert sub.entries[after[0] := Dict(map[])][after[0] := inner.0] == sub.entries[after[0] := inner.0];
    ReplaceTwice(v, before, sub', Write(sub, after, x).0);
  }

  /** Access to the nested properties held in `obj`. */
  // ---------- when a write succeeds ----------

  predicate Plain(seg: string) {
    Select(seg).index.None?
  }

  /** After the first `k` segments there is a dictionary to write to, or to make the missing ones in. */
  ghost predicate WritableAt(v: Value, segs: seq<string>, k: int) {
    && 0 <= k < |segs| && Read(v, segs[..k]).Some? && Read(v, segs[..k]).value.Dict?
    && (k < |segs| - 1 ==>
          segs[k] !in Read(v, segs[..k]).value.entries && forall m :: k <= m < |segs| - 1 ==> Plain(segs[m]))
  }

  lemma ReadOn(v: Value, segs: seq<string>, k: nat)
    requires 0 < k <= |segs|
    ensures Read(v, segs[..k]) ==
      if Pick(v, Select(segs[0])).None? then None else Read(Pick(v, Select(segs[0])).value, segs[1..][..k - 1])
  {
    assert segs[..k][1..] == segs[1..][..k - 1] && segs[..k][0] == segs[0];
  }

  lemma {:induction false} MakesAll(segs: seq<string>, x: Value)
    requires segs != []
    ensures Write(Dict(map[]), segs, x).1 <==> forall m :: 0 <= m < |segs| - 1 ==> Plain(segs[m])
    decreases |segs|
  {
    if |segs| > 1 {
      MakesAll(segs[1..], x);
      assert forall m :: 1 <= m < |segs| - 1 ==> segs[m] == segs[1..][m - 1];
      if forall m :: 0 <= m < |segs| - 1 ==> Plain(segs[m]) {
        forall m | 0 <= m < |segs[1..]| - 1 ensures Plain(segs[1..][m]) {
          assert Plain(segs[m + 1]);
        }
        assert Plain(segs[0]);
      }
    }
  }

  /** A write succeeds exactly if the way leads to a dictionary, or to one from which on only plain keys are missing. */
  lemma {:induction false} WritesExactly(v: Value, segs: seq<string>, x: Value)
    requires segs != []
    ensures Write(v, segs, x).1 <==> exists k :: WritableAt(v, segs, k)
    decreases |segs|
  {
    assert segs[..0] == [];
    if |segs| == 1 {
      assert v.Dict? ==> WritableAt(v, segs, 0);
    } else {
      var rest, sub := segs[1..], Enter(v, segs[0]);
      if v.Dict? && Plain(segs[0]) && segs[0] !in v.entries {
        MakesAll(rest, x);
        MissingFirst(v, segs);
      } else {
        if sub.Some? {
          WritesExactly(sub.value, rest, x);
          PresentFirst(v, segs, sub.value);
        } else {
          AbsentFirst(v, segs);
        }
      }
    }
  }

  lemma MissingFirst(v: Value, segs: seq<string>)
    requires |segs| > 1 && v.Dict? && Plain(segs[0]) && segs[0] !in v.entries
    ensures (exists k :: WritableAt(v, segs, k)) <==> forall m :: 0 <= m < |segs| - 2 ==> Plain(segs[1..][m])
  {
    assert segs[..0] == [] && Pick(v, Select(segs[0])).None?;
    if forall m :: 0 <= m < |segs| - 2 ==> Plain(segs[1..][m]) {
      forall m | 0 <= m < |segs| - 1 ensures Plain(segs[m]) {
        assert m > 0 ==> Plain(segs[1..][m - 1]);
      }
      assert WritableAt(v, segs, 0);
    }
    if k :| WritableAt(v, segs, k) {
      if k > 0 {
        ReadOn(v, segs, k);
      }
      forall m | 0 <= m < |segs| - 2 ensures Plain(segs[1..][m]) {
        assert segs[1..][m] == segs[m + 1];
      }
    }
  }

  lemma AbsentFirst(v: Value, segs: seq<string>)
    requires |segs| > 1 && Enter(v, segs[0]).None?
    ensures forall k :: !WritableAt(v, segs, k)
  {
    assert segs[..0] == [];
    forall k ensures !WritableAt(v, segs, k) {
      if 0 < k < |segs| {
        ReadOn(v, segs, k);
      }
    }
  }

  lemma PresentFirst(v: Value, segs: seq<string>, sub: Value)
    requires |segs| > 1 && Pick(v, Select(segs[0])) == Some(sub)
    requires !(v.Dict? && Plain(segs[0]) && segs[0] !in v.entries)
    ensures (exists k :: WritableAt(v, segs, k)) <==> exists k :: WritableAt(sub, segs[1..], k)
  {
    assert segs[..0] == [];
    if k :| WritableAt(v, segs, k) {
      if k > 0 {
        ReadOn(v, segs, k);
        assert forall m :: k <= m < |segs| - 1 ==> segs[1..][m - 1] == segs[m];
        assert WritableAt(sub, segs[1..], k - 1);
      }
    }
    if k :| WritableAt(sub, segs[1..], k) {
      ReadOn(v, segs, k + 1);
      assert forall m :: k + 1 <= m < |segs| - 1 ==> segs[m] == segs[1..][m - 1];
      assert WritableAt(v, segs, k + 1);
    }
  }

  class PathDictAccess {
    var obj: Value

    constructor (obj: Value)
      ensures this.obj == obj
    {
      this.obj := obj;
    }

    /** Walks down segment by segment. */
    method Get(path: string) returns (r: Option<Value>)
      ensures r == Read(obj, Split(path))
    {
      var segs := Split(path);
      var current := obj;
      for i := 0 to |segs|
        invariant Read(obj, segs) == Read(current, segs[i..])
      {
        var x := Pick(current, Select(segs[i]));
        assert segs[i..][1..] == segs[i + 1..];
        if x.None? {
          return None;
        }
        current := x.value;
      }
      r := Some(current);
    }

    /**
      Walks down the parents of the last segment, creating the dictionaries that are missing. What the
      write of `last` ends up with does not change on the way.
    */
    method EnterParents(parents: seq<string>, ghost last: string, ghost x: Value) returns (r: Option<Value>)
      modifies this
      ensures Write(obj, parents + [last], x) == Write(old(obj), parents + [last], x)
      ensures r.None? ==> (obj, false) == Write(old(obj), parents + [last], x)
      ensures r.Some? ==> Read(obj, parents) == r
    {
      ghost var split := parents + [last];
      var current := obj;
      for i := 0 to |parents|
        invariant Write(obj, split, x) == Write(old(obj), split, x)
        invariant Read(obj, parents[..i]) == Some(current)
      {
        var seg := parents[i];
        var sel := Select(seg);
        assert split == parents[..i] + split[i..] && split[i] == seg && |split[i..]| > 1;
        if sel.index.None? && current.Dict? && seg !in current.entries {
          CreateStep(obj, parents[..i], split[i..], x);
          obj := Replace(obj, parents[..i], Dict(current.entries[seg := Dict(map[])]));
          current := Dict(current.entries[seg := Dict(map[])]);
        }
        var next := Pick(current, sel);
        if next.None? {
          WriteThrough(obj, parents[..i], split[i..], x);
          ReplaceSame(obj, parents[..i]);
          return None;
        }
        ReadMore(obj, parents[..i], seg);
        assert parents[..i + 1] == parents[..i] + [seg];
        current := next.value;
      }
      assert parents[..|parents|] == parents;
      r := Some(current);
    }

    /**
      Sets the last segment in what the others lead to. The parents' path is put together again as a
      string and split once more.
    */
    method Set(path: string, x: Value) returns (ok: bool)
      modifies this
      ensures (obj, ok) == Write(old(obj), Split(path), x)
    {
      var split := Split(path);
      var parents: seq<string> := [];
      if |split| > 1 {
        parents := Split(Join(split[..|split| - 1]));
        SplitDotFree(path);
        assert forall p :: p in split[..|split| - 1] ==> p in split;
        SplitJoin(split[..|split| - 1]);
      }
      var last := split[|split| - 1];
      assert parents + [last] == split;
      var parent := EnterParents(parents, last, x);
      if parent.None? {
        return false;
      }
      WriteThrough(obj, parents, [last], x);
      if !parent.value.Dict? {
        ReplaceSame(obj, parents);
        return false;
      }
      obj := Replace(obj, parents, Dict(parent.value.entries[last := x]));
      ok := true;
    }
  }
}
