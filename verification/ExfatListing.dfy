/** What an exFAT directory lists: where the listed files stand, and how creating, changing and deleting
    an entry set changes the list.  A tidy directory stays tidy. */
module ExfatListing {
  import opened Bytes
  import opened ExfatEntries

  /** The scan reaches slot k and is not collecting a set there. */
  ghost predicate IdleAt(n: nat, s: seq<Slot>, k: nat) {
    k <= |s| && !Run(n, s, k).stopped && Run(n, s, k).scan == IDLE
  }

  /** File number t of the list is the set es at slot k, which the scan reaches while idle. */
  ghost predicate Lists(n: nat, s: seq<Slot>, t: nat, k: nat, es: seq<Byte>, node: Node) {
    && SetAt(s, k, es, node.count) && Opens(es, node.count) && Parse(n, es, node.count, 32 * k) == Some(node)
    && IdleAt(n, s, k) && |Run(n, s, k).nodes| == t && node.offset == 32 * k
  }

  /** The slots from k on are being collected: c of them so far, and the scan was idle before. */
  ghost predicate Collecting(n: nat, s: seq<Slot>, m: nat, c: nat) {
    && 0 < c <= m <= |s| && IdleAt(n, s, m - c)
    && (var p := Run(n, s, m);
        && Run(n, s, m - c).nodes == p.nodes && SetAt(s, m - c, p.scan.es, c) && c < p.scan.expected <= 19
        && p.scan.es[0] == ENTRY_FILE && p.scan.es[1] == p.scan.expected - 1
        && forall j :: 0 <= j < c ==> p.scan.es[32 * j] != 0)
  }

  lemma Collected(s: seq<Slot>, k: nat, es: seq<Byte>, c: nat)
    requires SetAt(s, k, es, c) && k + c < |s| && s[k + c][0] != 0 && forall j :: 0 <= j < c ==> es[32 * j] != 0
    ensures SetAt(s, k, es + s[k + c], c + 1) && forall j :: 0 <= j < c + 1 ==> (es + s[k + c])[32 * j] != 0
  {
    var more := es + s[k + c];
    forall j | 0 <= j < c + 1
      ensures s[k + j] == more[32 * j..32 * j + 32] && more[32 * j] != 0
    {
      if j < c {
        assert more[32 * j..32 * j + 32] == es[32 * j..32 * j + 32];
      }
    }
  }

  /** A step after which a set is being collected. */
  lemma StepCollects(n: nat, s: seq<Slot>, m: nat)
    requires 0 < m <= |s| && !Run(n, s, m).stopped && Run(n, s, m).scan != IDLE
    ensures var p, q := Run(n, s, m), Run(n, s, m - 1);
            && !q.stopped && s[m - 1][0] != 0 && p.nodes == q.nodes
            && 3 <= p.scan.expected <= 19 && |p.scan.es| < 32 * p.scan.expected && |p.scan.es| % 32 == 0
            && (if q.scan == IDLE then p.scan == Scan(s[m - 1][1] + 1, s[m - 1]) && s[m - 1][0] == ENTRY_FILE
                else p.scan == Scan(q.scan.expected, q.scan.es + s[m - 1]))
  {
    hide Parse;
    var q := Run(n, s, m - 1);
    assert q.nodes + [] == q.nodes;
  }

  /** A step that delivers a file. */
  lemma StepDelivers(n: nat, s: seq<Slot>, m: nat)
    requires 0 < m <= |s| && |Run(n, s, m).nodes| > |Run(n, s, m - 1).nodes|
    ensures var p, q := Run(n, s, m), Run(n, s, m - 1);
            && !q.stopped && s[m - 1][0] != 0 && q.scan != IDLE
            && 3 <= q.scan.expected <= 19 && |q.scan.es| + 32 == 32 * q.scan.expected <= 32 * m
            && var node := Parse(n, q.scan.es + s[m - 1], q.scan.expected, 32 * m - 32 * q.scan.expected);
               node.Some? && p.nodes == q.nodes + [node.value]
  {
    hide Parse;
  }

  lemma {:induction false} MidSet(n: nat, s: seq<Slot>, m: nat)
    requires m <= |s| && !Run(n, s, m).stopped && Run(n, s, m).scan != IDLE
    ensures Collecting(n, s, m, |Run(n, s, m).scan.es| / 32)
  {
    hide Run, Parse;
    if m == 0 {
      RunNothing(n, s);
    } else {
      StepCollects(n, s, m);
      var q := Run(n, s, m - 1);
      if q.scan == IDLE {
        assert s[m - 1][0..32] == s[m - 1];
      } else {
        MidSet(n, s, m - 1);
        Collected(s, m - 1 - |q.scan.es| / 32, q.scan.es, |q.scan.es| / 32);
      }
    }
  }

  lemma ParsePlace(n: nat, es: seq<Byte>, count: nat, offset: nat)
    requires |es| == 32 * count && 3 <= count <= 19 && Parse(n, es, count, offset).Some?
    ensures Parse(n, es, count, offset).value.offset == offset && Parse(n, es, count, offset).value.count == count
  {
  }

  lemma ListedLast(n: nat, s: seq<Slot>, m: nat) returns (k: nat, es: seq<Byte>, node: Node)
    requires 0 < m <= |s| && |Run(n, s, m).nodes| > |Run(n, s, m - 1).nodes|
    ensures Run(n, s, m).nodes == Run(n, s, m - 1).nodes + [node]
    ensures Lists(n, s, |Run(n, s, m - 1).nodes|, k, es, node)
  {
    hide Run, Parse;
    StepDelivers(n, s, m);
    MidSet(n, s, m - 1);
    var q := Run(n, s, m - 1);
    var c := |q.scan.es| / 32;
    k, es := m - 1 - c, q.scan.es + s[m - 1];
    Collected(s, k, q.scan.es, c);
    assert q.scan.expected == c + 1 && 32 * m - 32 * (c + 1) == 32 * k;
    ParsePlace(n, es, c + 1, 32 * k);
    node := Parse(n, es, c + 1, 32 * k).value;
  }

  /** Every file listed is a set that the scan reached while idle and recognised. */
  lemma {:induction false} ListedBy(n: nat, s: seq<Slot>, m: nat, t: nat) returns (k: nat, es: seq<Byte>)
    requires m <= |s| && t < |Run(n, s, m).nodes|
    ensures Lists(n, s, t, k, es, Run(n, s, m).nodes[t])
  {
    hide Run, Parse, Lists;
    RunNothing(n, s);
    RunGrows(n, s, m - 1, m);
    if t < |Run(n, s, m - 1).nodes| {
      k, es := ListedBy(n, s, m - 1, t);
    } else {
      var node;
      k, es, node := ListedLast(n, s, m);
    }
  }

  lemma Listed(n: nat, s: seq<Slot>, t: nat) returns (k: nat, es: seq<Byte>)
    requires t < |Visit(n, s)|
    ensures Lists(n, s, t, k, es, Visit(n, s)[t])
  {
    k, es := ListedBy(n, s, |s|, t);
  }

  // ----- writing a set over slots that are not in use

  /** From a to b the set es has been written over count slots at k, none of them in use. */
  ghost predicate Put(a: seq<Slot>, b: seq<Slot>, k: nat, es: seq<Byte>, count: nat) {
    && |a| == |b| && k + count <= |a| && SetAt(b, k, es, count)
    && (forall i :: 0 <= i < |a| && !(k <= i < k + count) ==> a[i] == b[i])
    && (forall i :: k <= i < k + count ==> a[i][0] < 0x80)
  }

  /** Whether an end mark is among the first m slots from k on. */
  ghost predicate MarkIn(s: seq<Slot>, k: nat, m: nat) {
    exists i :: k <= i < m && i < |s| && s[i][0] == 0
  }

  lemma {:induction false} FirstMarkIn(s: seq<Slot>, k: nat, m: nat) returns (i: nat)
    requires k <= m <= |s| && MarkIn(s, k, m)
    ensures k <= i < m && s[i][0] == 0 && forall j :: k <= j < i ==> s[j][0] != 0
  {
    if MarkIn(s, k, m - 1) {
      i := FirstMarkIn(s, k, m - 1);
    } else {
      i := m - 1;
    }
  }

  /** An idle scan over slots that are not in use: it stops at the first end mark or stays idle. */
  lemma PassedOver(n: nat, s: seq<Slot>, k: nat, m: nat)
    requires k <= m <= |s| && IdleAt(n, s, k) && forall i :: k <= i < m ==> s[i][0] < 0x80
    ensures !MarkIn(s, k, m) ==> Run(n, s, m) == Run(n, s, k)
    ensures MarkIn(s, k, m) ==> Visit(n, s) == Run(n, s, k).nodes && Run(n, s, m).stopped && Run(n, s, m).scan == IDLE
  {
    hide Run, Visit;
    if MarkIn(s, k, m) {
      var i := FirstMarkIn(s, k, m);
      RunPassed(n, s, k, i);
      StoppedAt(n, s, i);
      StopsAt(n, s, i, m);
    } else {
      RunPassed(n, s, k, m);
    }
  }

  lemma {:induction false} StopsAt(n: nat, s: seq<Slot>, i: nat, m: nat)
    requires i < m <= |s| && s[i][0] == 0
    ensures Run(n, s, m).stopped && (!Run(n, s, i).stopped ==> Run(n, s, m).scan == Run(n, s, i).scan)
    ensures Run(n, s, m).nodes == Run(n, s, i).nodes
  {
    hide ScanSlot;
    if i < m - 1 {
      StopsAt(n, s, i, m - 1);
    }
  }

  /** A set written over slots not in use is listed if and only if the scan reaches them while idle. */
  lemma ListedIff(n: nat, a: seq<Slot>, b: seq<Slot>, k: nat, es: seq<Byte>, count: nat, u: Node)
    requires Put(a, b, k, es, count) && Opens(es, count) && Parse(n, es, count, 32 * k) == Some(u)
    ensures u in Visit(n, b) <==> IdleAt(n, a, k)
  {
    hide Run, Parse, Opens, SetAt;
    RunSame(n, a, b, k);
    if IdleAt(n, a, k) {
      RunSetFound(n, b, k, es, count, u);
      RunGrows(n, b, k + count, |b|);
      assert Visit(n, b)[|Run(n, b, k).nodes|] == u;
    }
    if u in Visit(n, b) {
      var t :| 0 <= t < |Visit(n, b)| && Visit(n, b)[t] == u;
      ParseOffset(n, es, count, 32 * k);
      var k', es' := Listed(n, b, t);
      assert k' == k;
    }
  }

  lemma ParseOffset(n: nat, es: seq<Byte>, count: nat, offset: nat)
    requires Opens(es, count) && Parse(n, es, count, offset).Some?
    ensures Parse(n, es, count, offset).value.offset == offset
  {
  }

  /** In that case all files listed before are still listed, in the same order.  Without an end mark among
      the slots overwritten the list is the old one with the new file put in; with one, the new file comes
      last and after it whatever the slots behind hold. */
  lemma ListedAfterPut(n: nat, a: seq<Slot>, b: seq<Slot>, k: nat, es: seq<Byte>, count: nat, u: Node)
    requires Put(a, b, k, es, count) && Opens(es, count) && Parse(n, es, count, 32 * k) == Some(u) && IdleAt(n, a, k)
    ensures var x := Run(n, a, k).nodes;
            && x <= Visit(n, a) && x + [u] <= Visit(n, b) && Run(n, b, k + count) == Progress(IDLE, x + [u], false)
            && (if MarkIn(a, k, k + count) then Visit(n, a) == x else Visit(n, b) == x + [u] + Visit(n, a)[|x|..])
  {
    hide Run, Parse, Opens, SetAt, MarkIn;
    var x := Run(n, a, k).nodes;
    RunSame(n, a, b, k);
    RunSetFound(n, b, k, es, count, u);
    RunGrows(n, a, k, |a|);
    RunGrows(n, b, k + count, |b|);
    PassedOver(n, a, k, k + count);
    if !MarkIn(a, k, k + count) {
      RunParallel(n, a, b, k + count, |a|);
      assert Visit(n, b) == (x + [u]) + Visit(n, b)[|x| + 1..];
    }
  }

  // ----- tidy directories

  ghost predicate TidyAt(n: nat, s: seq<Slot>, i: nat)
    requires i < |s|
  {
    if Run(n, s, i).stopped then s[i][0] == 0 else Run(n, s, i).scan == IDLE || s[i][0] > 0x80
  }

  /** Behind an end mark there are only end marks; all entries of a set are in use, of a type above 0x80;
      and no set is cut off by the end of the directory. */
  ghost predicate Tidy(n: nat, s: seq<Slot>) {
    (forall i :: 0 <= i < |s| ==> TidyAt(n, s, i)) && Run(n, s, |s|).scan == IDLE
  }

  /** Zeroed slots at the end of a directory add nothing to its list. */
  lemma VisitGrown(n: nat, a: seq<Slot>, z: seq<Slot>)
    requires forall i :: 0 <= i < |z| ==> z[i][0] == 0
    ensures Visit(n, a + z) == Visit(n, a)
  {
    hide Run;
    RunSame(n, a, a + z, |a|);
    if |z| > 0 {
      StopsAt(n, a + z, |a|, |a + z|);
    }
  }

  /** Growing a directory by zeroed slots keeps it tidy. */
  lemma TidyGrown(n: nat, a: seq<Slot>, z: seq<Slot>)
    requires Tidy(n, a) && forall i :: 0 <= i < |z| ==> z[i][0] == 0
    ensures Tidy(n, a + z) && Visit(n, a + z) == Visit(n, a)
  {
    hide Run;
    var s := a + z;
    RunSame(n, a, s, |a|);
    forall i | 0 <= i < |s|
      ensures TidyAt(n, s, i)
    {
      if i < |a| {
        RunSame(n, a, s, i);
        assert TidyAt(n, a, i);
      } else if i > |a| {
        StopsAt(n, s, |a|, i);
      }
    }
    if |z| > 0 {
      StopsAt(n, s, |a|, |s|);
      if Run(n, s, |a|).stopped {
        StopKeeps(n, s, |a|, |s|);
      }
    }
  }

  lemma {:induction false} StopKeeps(n: nat, s: seq<Slot>, i: nat, m: nat)
    requires i <= m <= |s| && Run(n, s, i).stopped
    ensures Run(n, s, m) == Run(n, s, i)
  {
    hide ScanSlot;
    if i < m {
      StopKeeps(n, s, i, m - 1);
    }
  }

  /** Where a run of unused slots begins in a tidy directory, the scan is idle. */
  lemma TidyIdle(n: nat, s: seq<Slot>, k: nat)
    requires Tidy(n, s) && k < |s| && s[k][0] < 0x80 && (k > 0 ==> s[k - 1][0] >= 0x80)
    ensures IdleAt(n, s, k)
  {
    hide ScanSlot;
    assert TidyAt(n, s, k);
    if k > 0 {
      assert TidyAt(n, s, k - 1);
    }
  }

  /** All entries of a set that a tidy directory lists are in use. */
  lemma TidySet(n: nat, s: seq<Slot>, k: nat, es: seq<Byte>, count: nat)
    requires Tidy(n, s) && IdleAt(n, s, k) && SetAt(s, k, es, count) && Opens(es, count)
    ensures forall j :: 0 <= j < count ==> es[32 * j] > 0x80
    ensures !HoldsMark(es, count)
  {
    hide Run, Parse;
    forall j | 0 <= j < count
      ensures es[32 * j] > 0x80
    {
      if j > 0 {
        RunInside(n, s, k, es, count, j);
        assert TidyAt(n, s, k + j);
        assert s[k + j] == es[32 * j..32 * j + 32];
      }
    }
  }

  lemma TidyInside(n: nat, s: seq<Slot>, k: nat, es: seq<Byte>, count: nat, i: nat)
    requires IdleAt(n, s, k) && SetAt(s, k, es, count) && Opens(es, count) && k <= i < k + count
    requires forall j :: 0 <= j < count ==> es[32 * j] > 0x80
    ensures TidyAt(n, s, i)
  {
    hide Run, Parse;
    if i > k {
      RunInside(n, s, k, es, count, i - k);
      assert s[k + (i - k)] == es[32 * (i - k)..32 * (i - k) + 32];
    }
  }

  /** Tidiness behind slot m carries over when the scans agree there. */
  lemma TidyBehind(n: nat, a: seq<Slot>, b: seq<Slot>, m: nat)
    requires Tidy(n, a) && m <= |a| == |b| && (forall i :: m <= i < |a| ==> a[i] == b[i])
             && forall i :: 0 <= i < m ==> TidyAt(n, b, i)
    requires Run(n, a, m).scan == Run(n, b, m).scan && Run(n, a, m).stopped == Run(n, b, m).stopped
    ensures Tidy(n, b)
  {
    hide Run;
    forall i | m <= i < |b|
      ensures TidyAt(n, b, i)
    {
      RunParallel(n, a, b, m, i);
      assert TidyAt(n, a, i);
    }
    RunParallel(n, a, b, m, |a|);
  }

  lemma TidyBefore(n: nat, a: seq<Slot>, b: seq<Slot>, k: nat)
    requires Tidy(n, a) && k <= |a| == |b| && forall i :: 0 <= i < k ==> a[i] == b[i]
    ensures forall i :: 0 <= i < k ==> TidyAt(n, b, i)
  {
    hide Run;
    forall i | 0 <= i < k
      ensures TidyAt(n, b, i)
    {
      RunSame(n, a, b, i);
      assert TidyAt(n, a, i);
    }
  }

  /** Creating a file in a tidy directory, in slots where a run of unused ones begins: the new file joins
      the list, all others stay, and the directory is tidy again. */
  lemma TidyCreated(n: nat, a: seq<Slot>, b: seq<Slot>, k: nat, es: seq<Byte>, count: nat, u: Node)
    requires Tidy(n, a) && Put(a, b, k, es, count) && Opens(es, count) && Parse(n, es, count, 32 * k) == Some(u)
    requires k > 0 ==> a[k - 1][0] >= 0x80
    requires forall j :: 0 <= j < count ==> es[32 * j] > 0x80
    ensures Tidy(n, b) && IdleAt(n, a, k)
    ensures var t := |Run(n, a, k).nodes|;
            t <= |Visit(n, a)| && Visit(n, b) == Visit(n, a)[..t] + [u] + Visit(n, a)[t..]
  {
    hide Run, Parse, SetAt, MarkIn, Tidy, TidyAt, Opens;
    OpensSize(es, count);
    TidyIdle(n, a, k);
    RunSame(n, a, b, k);
    ListedAfterPut(n, a, b, k, es, count, u);
    PassedOver(n, a, k, k + count);
    TidyBefore(n, a, b, k);
    forall i | k <= i < k + count
      ensures TidyAt(n, b, i)
    {
      TidyInside(n, b, k, es, count, i);
    }
    if MarkIn(a, k, k + count) {
      TidyRest(n, a, b, k + count);
    } else {
      TidyBehind(n, a, b, k + count);
    }
  }

  lemma OpensSize(es: seq<Byte>, count: nat)
    requires Opens(es, count)
    ensures 3 <= count <= 19
  {
  }

  /** Behind an end mark that was overwritten there is nothing to be found. */
  lemma TidyRest(n: nat, a: seq<Slot>, b: seq<Slot>, m: nat)
    requires Tidy(n, a) && m <= |a| == |b| && (forall i :: m <= i < |a| ==> a[i] == b[i])
             && forall i :: 0 <= i < m ==> TidyAt(n, b, i)
    requires Run(n, a, m).stopped && IdleAt(n, b, m)
    ensures Tidy(n, b) && Visit(n, b) == Run(n, b, m).nodes
  {
    hide Run;
    forall i | m <= i < |b|
      ensures b[i][0] == 0 && TidyAt(n, b, i)
    {
      StopKeeps(n, a, m, i);
      assert TidyAt(n, a, i);
      if i > m {
        StopKeeps(n, a, m, m);
        assert TidyAt(n, a, m);
        StopsAt(n, b, m, i);
      }
    }
    if m < |b| {
      StopsAt(n, b, m, |b|);
    }
  }

  /** Updating the stream of a listed file keeps a directory tidy. */
  lemma TidyUpdated(n: nat, a: seq<Slot>, b: seq<Slot>, k: nat, es: seq<Byte>, es': seq<Byte>, count: nat, u: Node,
                    w: Node)
    requires Tidy(n, a) && IdleAt(n, a, k) && Opens(es, count) && Opens(es', count)
             && Replaced(a, b, k, es, es', count) && k + count <= |a|
    requires Parse(n, es, count, 32 * k) == Some(u) && Parse(n, es', count, 32 * k) == Some(w)
    requires forall j :: 0 <= j < count ==> es'[32 * j] == es[32 * j]
    ensures Tidy(n, b)
  {
    hide Run, Parse, SetAt, Tidy, TidyAt;
    TidySet(n, a, k, es, count);
    RunSame(n, a, b, k);
    RunReplaced(n, a, b, k, es, es', count, u, w);
    TidyBefore(n, a, b, k);
    forall i | k <= i < k + count
      ensures TidyAt(n, b, i)
    {
      TidyInside(n, b, k, es', count, i);
    }
    TidyBehind(n, a, b, k + count);
  }

  /** Deleting a listed file from a tidy directory: the others stay listed and the directory is tidy. */
  lemma TidyRetired(n: nat, a: seq<Slot>, b: seq<Slot>, k: nat, es: seq<Byte>, count: nat, u: Node)
    requires Tidy(n, a) && IdleAt(n, a, k) && Opens(es, count) && Replaced(a, b, k, es, Retire(es, count), count)
             && k + count <= |a|
    requires Parse(n, es, count, 32 * k) == Some(u)
    ensures Tidy(n, b)
    ensures var t := |Run(n, a, k).nodes|;
            t < |Visit(n, a)| && Visit(n, a)[t] == u && Visit(n, b) == Visit(n, a)[..t] + Visit(n, a)[t + 1..]
  {
    hide Run, Parse, SetAt, Tidy, TidyAt, HoldsMark, Visit;
    TidySet(n, a, k, es, count);
    VisitRetired(n, a, b, k, es, count, u);
    RunSame(n, a, b, k);
    RunRemoved(n, a, b, k, es, count, u);
    TidyBefore(n, a, b, k);
    forall i | k <= i < k + count
      ensures TidyAt(n, b, i)
    {
      RunRetired(n, b, k, es, count, i - k);
      IdleTidy(n, b, i);
    }
    TidyBehind(n, a, b, k + count);
  }

  lemma IdleTidy(n: nat, s: seq<Slot>, i: nat)
    requires i < |s| && IdleAt(n, s, i)
    ensures TidyAt(n, s, i)
  {
  }

  // ----- finding a file by its name

  /** A name unit as the comparison sees it; units have 16 bits. */
  function Folded(table: seq<nat>, c: nat): nat
    requires ValidTable(table)
  {
    if c < 0x1_0000 then Upcase(table, c) else c
  }

  /** names_equal */
  predicate SameName(table: seq<nat>, a: seq<nat>, b: seq<nat>)
    requires ValidTable(table)
  {
    |a| == |b| && forall i :: 0 <= i < |a| ==> Folded(table, a[i]) == Folded(table, b[i])
  }

  lemma SameNameIff(table: seq<nat>, a: seq<nat>, b: seq<nat>)
    requires ValidTable(table)
    ensures SameName(table, a, b) <==> EqualUpToCase(table, a, b)
  {
    hide Capital, Upcase;
    if |a| == |b| {
      forall i | 0 <= i < |a|
        ensures Folded(table, a[i]) == Folded(table, b[i]) <==>
                a[i] == b[i] || exists u: nat :: Capital(table, a[i], u) && Capital(table, b[i], u)
      {
        FoldedIff(table, a[i], b[i]);
      }
    }
  }

  lemma FoldedIff(table: seq<nat>, c: nat, d: nat)
    requires ValidTable(table)
    ensures Folded(table, c) == Folded(table, d) <==>
            c == d || exists u: nat :: Capital(table, c, u) && Capital(table, d, u)
  {
    hide Upcase, Capital;
    CapitalOf(table, c);
    CapitalOf(table, d);
    if c < 0x1_0000 && d < 0x1_0000 && Folded(table, c) == Folded(table, d) {
      assert Capital(table, c, Folded(table, c)) && Capital(table, d, Folded(table, d));
    }
  }

  /** Only units of 16 bits can be capitals of one another. */
  lemma CapitalOf(table: seq<nat>, c: nat)
    requires ValidTable(table)
    ensures c < 0x1_0000 ==> Folded(table, c) < 0x1_0000 && forall u: nat :: Capital(table, c, u) <==>
              u == Folded(table, c)
    ensures c >= 0x1_0000 ==> Folded(table, c) == c && forall u: nat :: Capital(table, c, u) ==> u == c
  {
    hide Upcase, Capitalized;
    if c < 0x1_0000 {
      UpcaseCapital(table, c);
    } else {
      forall u: nat | Capital(table, c, u)
        ensures u == c
      {
        CapitalIs(c, u);
      }
    }
  }

  /** t is the place of the first file with that name up to case, or the length of the list. */
  ghost predicate FirstNamed(table: seq<nat>, nodes: seq<Node>, name: seq<nat>, t: nat) {
    && t <= |nodes| && (t < |nodes| ==> EqualUpToCase(table, nodes[t].record.name, name))
    && forall j :: 0 <= j < t ==> !EqualUpToCase(table, nodes[j].record.name, name)
  }

  lemma FoundFirst(table: seq<nat>, nodes: seq<Node>, name: seq<nat>)
    requires ValidTable(table)
    ensures FirstNamed(table, nodes, name, Found(table, nodes, name))
  {
    hide SameName, EqualUpToCase;
    var t := Found(table, nodes, name);
    forall j | 0 <= j <= t && j < |nodes|
      ensures SameName(table, nodes[j].record.name, name) <==> EqualUpToCase(table, nodes[j].record.name, name)
    {
      SameNameIff(table, nodes[j].record.name, name);
    }
  }

  /** The place of the first file with that name, or the length of the list. */
  function Found(table: seq<nat>, nodes: seq<Node>, name: seq<nat>): (i: nat)
    requires ValidTable(table)
    ensures i <= |nodes| && (i < |nodes| ==> SameName(table, nodes[i].record.name, name))
    ensures forall j :: 0 <= j < i ==> !SameName(table, nodes[j].record.name, name)
  {
    if |nodes| == 0 then 0
    else
      var i := Found(table, nodes[..|nodes| - 1], name);
      if i < |nodes| - 1 || SameName(table, nodes[|nodes| - 1].record.name, name) then i else |nodes|
  }

  lemma FoundOnce(table: seq<nat>, nodes: seq<Node>, name: seq<nat>, i: nat)
    requires ValidTable(table) && i <= |nodes| && (i < |nodes| ==> SameName(table, nodes[i].record.name, name))
    requires forall j :: 0 <= j < i ==> !SameName(table, nodes[j].record.name, name)
    ensures Found(table, nodes, name) == i
  {
    hide SameName;
  }

  /** A file of another name does not hide the one looked for. */
  lemma FoundInserted(table: seq<nat>, nodes: seq<Node>, name: seq<nat>, t: nat, u: Node)
    requires ValidTable(table) && t <= |nodes| && !SameName(table, u.record.name, name)
    ensures var i := Found(table, nodes, name);
            Found(table, nodes[..t] + [u] + nodes[t..], name) == if i < t then i else i + 1
  {
    hide SameName, Found;
    var i, more := Found(table, nodes, name), nodes[..t] + [u] + nodes[t..];
    assert forall j :: 0 <= j < |more| ==> more[j] == if j < t then nodes[j] else if j == t then u else nodes[j - 1];
    FoundOnce(table, more, name, if i < t then i else i + 1);
  }

  /** Putting in u at t and then taking out what was at i is the same in the other order. */
  lemma InsertRemove(nodes: seq<Node>, t: nat, u: Node, i: nat)
    requires t <= |nodes| && i < |nodes|
    ensures var more, j, rest := nodes[..t] + [u] + nodes[t..], if i < t then i else i + 1, nodes[..i] + nodes[i + 1..];
            var t' := if i < t then t - 1 else t;
            more[..j] + more[j + 1..] == rest[..t'] + [u] + rest[t'..]
  {
  }

  /** A new file of another name is put in and the one looked for is taken out. */
  lemma RenamedList(table: seq<nat>, nodes: seq<Node>, name: seq<nat>, t: nat, u: Node) returns (t': nat)
    requires ValidTable(table) && t <= |nodes| && !SameName(table, u.record.name, name)
             && Found(table, nodes, name) < |nodes|
    ensures var i, more := Found(table, nodes, name), nodes[..t] + [u] + nodes[t..];
            var j, rest := Found(table, more, name), nodes[..i] + nodes[i + 1..];
            t' < |nodes| && j < |more| && more[..j] + more[j + 1..] == rest[..t'] + [u] + rest[t'..]
  {
    hide Found, SameName;
    var i := Found(table, nodes, name);
    FoundInserted(table, nodes, name, t, u);
    InsertRemove(nodes, t, u, i);
    t' := if i < t then t - 1 else t;
  }
}
