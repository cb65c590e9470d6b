/** Link buckets: how many copies each content path needs, which one an entry links to, and how the entries are
    dealt out to workers. */
module SqfsBuckets {
  import A = SqfsAccounting

  const MAX_HARD_LINKS := 30000
  const MAX_WORK_ITEMS := 10000

  type Src = A.Src
  type Path = A.Path

  function Lookup(m: map<Path, nat>, p: Path): nat {
    if p in m then m[p] else 0
  }

  /** How many of the first `n` entries have a source out of `srcs` that is filed under the path. */
  function References(entries: seq<Src>, n: nat, content: map<Src, Path>, srcs: set<Src>, p: Path): nat
    requires n <= |entries|
  {
    if n == 0 then 0
    else
      var src := entries[n - 1];
      References(entries, n - 1, content, srcs, p) + A.One(src in srcs && src in content && content[src] == p)
  }

  lemma {:induction false} ReferencesOneMore(
    entries: seq<Src>, n: nat, content: map<Src, Path>, srcs: set<Src>, src: Src, p: Path)
    requires n <= |entries| && src !in srcs && src in content
    ensures References(entries, n, content, srcs + {src}, p) ==
            References(entries, n, content, srcs, p) + if content[src] == p then A.Occurrences(entries, n, src) else 0
  {
    if n > 0 {
      ReferencesOneMore(entries, n - 1, content, srcs, src, p);
    }
  }

  /** The non-empty sources of the manifest. */
  function Sources(entries: seq<Src>): set<Src> {
    set s | s in entries && s != ""
  }

  /** The reference count of each content path: how many manifest entries with a non-empty source are filed
      under it. */
  ghost predicate CountsReferences(entries: seq<Src>, content: map<Src, Path>, counts: map<Path, nat>) {
    forall p {:trigger Lookup(counts, p)} ::
      Lookup(counts, p) == References(entries, |entries|, content, Sources(entries), p)
  }

  /** What the accounting leaves behind when nothing failed. */
  ghost predicate Accounting(entries: seq<Src>, content: map<Src, Path>, duplicates: map<Src, nat>) {
    && duplicates.Keys == Sources(entries) && duplicates.Keys <= content.Keys
    && forall s :: s in duplicates ==> duplicates[s] == A.Occurrences(entries, |entries|, s)
  }

  method CountLinks(ghost entries: seq<Src>, content: map<Src, Path>, duplicates: map<Src, nat>)
    returns (linkCount: map<Path, nat>)
    requires Accounting(entries, content, duplicates)
    ensures CountsReferences(entries, content, linkCount)
  {
    linkCount := map[];
    var rest := duplicates.Keys;
    ghost var done: set<Src> := {};
    forall p
      ensures References(entries, |entries|, content, {}, p) == 0
    {
      NoReferences(entries, |entries|, content, p);
    }
    while rest != {}
      invariant rest + done == duplicates.Keys && rest !! done
      invariant forall p {:trigger Lookup(linkCount, p)} ::
                  Lookup(linkCount, p) == References(entries, |entries|, content, done, p)
      decreases rest
    {
      var src :| src in rest;
      rest := rest - {src};
      var hashPath := content[src];
      ghost var before := linkCount;
      linkCount := linkCount[hashPath := Lookup(linkCount, hashPath) + duplicates[src]];
      forall p
        ensures Lookup(linkCount, p) == References(entries, |entries|, content, done + {src}, p)
      {
        ReferencesOneMore(entries, |entries|, content, done, src, p);
        assert Lookup(linkCount, p) == Lookup(before, p) + if p == hashPath then duplicates[src] else 0;
      }
      done := done + {src};
    }
    assert done == Sources(entries);
  }

  lemma {:induction false} NoReferences(entries: seq<Src>, n: nat, content: map<Src, Path>, p: Path)
    requires n <= |entries|
    ensures References(entries, n, content, {}, p) == 0
  {
    if n > 0 {
      NoReferences(entries, n - 1, content, p);
    }
  }

  /** The counts agree with the accounting of every error-free run of the producer and its workers. */
  lemma RunGivesAccounting(entries: seq<Src>, n: nat, steps: seq<A.Step>, states: seq<A.State>)
    requires n >= 1 && A.Execution(entries, true, n, steps, states)
    requires !states[|steps|].failed && A.AllGone(states[|steps|].workers)
    ensures Accounting(entries, states[|steps|].contentMap, states[|steps|].duplicates)
  {
    var s := states[|steps|];
    forall src
      ensures src in s.duplicates <==> src in Sources(entries)
      ensures src in s.duplicates ==> src in s.contentMap && s.duplicates[src] == A.Occurrences(entries, |entries|, src)
    {
      A.AllStoredAndCounted(entries, true, n, steps, states, src);
      A.OccursIff(entries, |entries|, src);
      assert entries[..|entries|] == entries;
      A.InvariantAlways(entries, true, n, steps, states, |steps|);
      assert A.Accounted(entries, true, s, src);
    }
  }

  /** `n` is the least number of copies that `links` links fit on. */
  predicate IsLeastCopies(links: nat, n: nat) {
    n * MAX_HARD_LINKS >= links && forall m: nat :: m < n ==> m * MAX_HARD_LINKS < links
  }

  lemma CopiesAreLeast(links: nat)
    ensures IsLeastCopies(links, (links + MAX_HARD_LINKS - 1) / MAX_HARD_LINKS)
  {
  }

  /** 30000 references need no copies of a file, the next one makes it two. */
  lemma FirstCopies(linkCount: map<Path, nat>, buckets: map<Path, nat>, created: set<(Path, nat)>, p: Path)
    requires IsBucketing(linkCount, buckets, created)
    ensures Lookup(linkCount, p) == 30000 ==> p !in buckets
    ensures Lookup(linkCount, p) == 30001 ==> p in buckets && buckets[p] == 2
  {
    assert Lookup(linkCount, p) == 30001 ==> 1 * MAX_HARD_LINKS < Lookup(linkCount, p) <= 2 * MAX_HARD_LINKS;
  }

  /** Which copies could not be made; a failure ends the whole run. */
  type Failures = set<(Path, nat)>

  method MakeCopies(p: Path, numFiles: nat, failures: Failures, created: set<(Path, nat)>)
    returns (ok: bool, created': set<(Path, nat)>)
    ensures ok ==> created' == created + set i | 0 <= i < numFiles :: (p, i)
    ensures ok <==> forall i: nat :: i < numFiles ==> (p, i) !in failures
  {
    created' := created;
    for i := 0 to numFiles
      invariant created' == created + set k | 0 <= k < i :: (p, k)
      invariant forall k: nat :: k < i ==> (p, k) !in failures
    {
      if (p, i) in failures {
        return false, created';
      }
      created' := created' + {(p, i)};
    }
    ok := true;
  }

  /** The bucket counts and the copies: a path with more references than a file may have links gets the least
      number of copies that suffices, numbered from 0; any other path gets none. */
  ghost predicate IsBucketing(linkCount: map<Path, nat>, buckets: map<Path, nat>, created: set<(Path, nat)>) {
    && (forall p :: p in buckets <==> Lookup(linkCount, p) > MAX_HARD_LINKS)
    && (forall p :: p in buckets ==> IsLeastCopies(Lookup(linkCount, p), buckets[p]))
    && (forall p, i :: (p, i) in created <==> p in buckets && i < buckets[p])
  }

  /** The copies before it do not hold all links. */
  predicate NeedsCopy(linkCount: map<Path, nat>, p: Path, i: nat) {
    Lookup(linkCount, p) > MAX_HARD_LINKS && i * MAX_HARD_LINKS < Lookup(linkCount, p)
  }

  lemma CopiesNeeded(linkCount: map<Path, nat>, p: Path, n: nat)
    requires Lookup(linkCount, p) > MAX_HARD_LINKS && IsLeastCopies(Lookup(linkCount, p), n)
    ensures forall i: nat :: NeedsCopy(linkCount, p, i) <==> i < n
  {
  }

  /** The bucketing of the paths outside `rest`; paths in `rest` still hold their link count. */
  ghost predicate Bucketed(links: map<Path, nat>, current: map<Path, nat>, created: set<(Path, nat)>, rest: set<Path>) {
    && rest <= links.Keys
    && (forall p :: p in rest ==> p in current && current[p] == links[p])
    && (forall p :: p in current && p !in rest ==>
          Lookup(links, p) > MAX_HARD_LINKS && IsLeastCopies(Lookup(links, p), current[p]))
    && (forall p :: p in links && p !in rest && links[p] > MAX_HARD_LINKS ==> p in current)
    && (forall p, i :: (p, i) in created <==> p in current && p !in rest && i < current[p])
  }

  /** The loop that rewrites the link counts in place into bucket counts. */
  method MakeBuckets(linkCount: map<Path, nat>, failures: Failures)
    returns (ok: bool, buckets: map<Path, nat>, created: set<(Path, nat)>)
    ensures ok ==> IsBucketing(linkCount, buckets, created)
    ensures ok <==> forall p, i: nat :: NeedsCopy(linkCount, p, i) ==> (p, i) !in failures
  {
    buckets, created := linkCount, {};
    var rest := linkCount.Keys;
    while rest != {}
      invariant Bucketed(linkCount, buckets, created, rest)
      invariant forall p, i: nat :: NeedsCopy(linkCount, p, i) && p !in rest ==> (p, i) !in failures
      decreases rest
    {
      var p :| p in rest;
      rest := rest - {p};
      var numLinks := buckets[p];
      if numLinks > MAX_HARD_LINKS {
        var numFiles := (numLinks + MAX_HARD_LINKS - 1) / MAX_HARD_LINKS;
        CopiesAreLeast(numLinks);
        CopiesNeeded(linkCount, p, numFiles);
        buckets := buckets[p := numFiles];
        ok, created := MakeCopies(p, numFiles, failures, created);
        if !ok {
          return;
        }
      } else {
        buckets := buckets - {p};
      }
    }
    ok := true;
  }

  /** The file an entry is linked to: the content path itself, or one of its copies, picked by a 32-bit hash of the
      destination. */
  datatype LinkTarget = Plain(path: Path) | Copy(path: Path, bucket: nat)

  function TargetOf(hashPath: Path, hash: nat, buckets: map<Path, nat>): LinkTarget
    requires hashPath in buckets ==> buckets[hashPath] > 0
  {
    if hashPath in buckets then Copy(hashPath, hash % buckets[hashPath]) else Plain(hashPath)
  }

  /** Of any as many consecutive hashes as there are copies, each copy gets exactly one. */
  lemma HashesSpread(p: Path, buckets: map<Path, nat>, first: nat, i: nat)
    requires p in buckets && i < buckets[p]
    ensures exists h :: first <= h < first + buckets[p] && TargetOf(p, h, buckets) == Copy(p, i)
    ensures forall g, h :: first <= g < h < first + buckets[p] ==> TargetOf(p, g, buckets) != TargetOf(p, h, buckets)
  {
    var h := HashFor(first, buckets[p], i);
    assert TargetOf(p, h, buckets) == Copy(p, i);
    forall g: nat, h: nat | first <= g < h < first + buckets[p]
      ensures TargetOf(p, g, buckets) != TargetOf(p, h, buckets)
    {
      ResiduesDiffer(g, h, buckets[p]);
    }
  }

  lemma HashFor(first: nat, n: nat, i: nat) returns (h: nat)
    requires i < n
    ensures first <= h < first + n && h % n == i
  {
    var q, r := first / n, first % n;
    var full := if i >= r then q else q + 1;
    assert (q + 1) * n == q * n + n && first == q * n + r;
    h := full * n + i;
    QuotientIs(h, n, full, i);
    assert h == (h / n) * n + h % n;
  }

  lemma ResiduesDiffer(g: nat, h: nat, n: nat)
    requires g < h < g + n
    ensures g % n != h % n
  {
    if g % n == h % n {
      var a, b := g / n, h / n;
      assert g == a * n + g % n && h == b * n + h % n;
      assert (b - a) * n == b * n - a * n == h - g;
      MultipleIsFar(b - a, n);
    }
  }

  method ChooseTarget(src: Src, hash: nat, content: map<Src, Path>, buckets: map<Path, nat>,
                      ghost linkCount: map<Path, nat>, ghost created: set<(Path, nat)>)
    returns (target: LinkTarget)
    requires src in content && IsBucketing(linkCount, buckets, created)
    ensures target == TargetOf(content[src], hash, buckets)
    ensures target.path == content[src]
    ensures target.Copy? <==> Lookup(linkCount, content[src]) > MAX_HARD_LINKS
    ensures target.Copy? ==> (target.path, target.bucket) in created
  {
    var hashPath := content[src];
    if hashPath in buckets {
      var numFiles := buckets[hashPath];
      return Copy(hashPath, hash % numFiles);
    }
    return Plain(hashPath);
  }

  // ----- dealing out the entries -----

  datatype WorkItem = WorkItem(start: nat, end: nat)

  function StepOf(length: nat): nat {
    if length / MAX_WORK_ITEMS < 1 then 1 else length / MAX_WORK_ITEMS
  }

  /** The items cut the entries into consecutive non-empty stretches. */
  ghost predicate IsPartition(items: seq<WorkItem>, length: nat) {
    && (items == [] <==> length == 0)
    && (items != [] ==> items[0].start == 0 && items[|items| - 1].end == length)
    && (forall k :: 0 <= k < |items| ==> items[k].start < items[k].end)
    && (forall k {:trigger Adjacent(items, k)} :: 0 <= k < |items| - 1 ==> Adjacent(items, k))
  }

  predicate Adjacent(items: seq<WorkItem>, k: int)
    requires 0 <= k < |items| - 1
  {
    items[k].end == items[k + 1].start
  }

  /** The stretches cut so far, up to `i`. */
  ghost predicate CutUpTo(items: seq<WorkItem>, length: nat, i: nat) {
    IsPartition(items, if i < length then i else length)
  }

  method DealOut(length: nat) returns (items: seq<WorkItem>)
    ensures IsPartition(items, length)
    ensures |items| == (length + StepOf(length) - 1) / StepOf(length)
  {
    var step := StepOf(length);
    items := [];
    var i := 0;
    while i < length
      invariant i == |items| * step && i < length + step
      invariant CutUpTo(items, length, i)
      decreases length + step - i
    {
      var end := i + step;
      if end > length {
        end := length;
      }
      CutOneMore(items, length, i, end);
      items := items + [WorkItem(i, end)];
      i := i + step;
    }
    Ceiling(|items|, step, length);
  }

  lemma CutOneMore(items: seq<WorkItem>, length: nat, i: nat, end: nat)
    requires CutUpTo(items, length, i) && i < end <= length
    ensures IsPartition(items + [WorkItem(i, end)], end)
  {
    var more := items + [WorkItem(i, end)];
    forall k | 0 <= k < |more| - 1
      ensures Adjacent(more, k)
    {
      if k < |items| - 1 {
        assert Adjacent(items, k);
      }
    }
  }

  lemma Ceiling(n: nat, step: nat, length: nat)
    requires step >= 1 && length <= n * step < length + step
    ensures n == (length + step - 1) / step
  {
    var spare := n * step - length;
    QuotientIs(length + step - 1, step, n, step - 1 - spare);
  }

  lemma MultipleIsFar(k: int, q: nat)
    requires q >= 1
    ensures k >= 0 ==> k * q >= 0
    ensures k >= 1 ==> k * q >= q
    ensures k <= -1 ==> k * q + q <= 0
  {
  }

  lemma QuotientIs(x: nat, q: nat, n: nat, rem: nat)
    requires q >= 1 && x == n * q + rem && rem < q
    ensures x / q == n
  {
    var m := x / q;
    assert x == m * q + x % q;
    assert (m - n) * q == m * q - n * q;
    MultipleIsFar(m - n, q);
  }

  lemma FrontIsPartition(items: seq<WorkItem>, length: nat)
    requires IsPartition(items, length) && |items| > 1
    ensures IsPartition(items[..|items| - 1], items[|items| - 1].start)
  {
    var front := items[..|items| - 1];
    assert Adjacent(items, |front| - 1);
    forall k | 0 <= k < |front| - 1
      ensures Adjacent(front, k)
    {
      assert Adjacent(items, k);
    }
  }

  predicate InItem(item: WorkItem, i: nat) {
    item.start <= i < item.end
  }

  /** Every entry is in a work item. */
  lemma {:induction false} EntryIsDealt(items: seq<WorkItem>, length: nat, i: nat)
    requires IsPartition(items, length)
    ensures i < length <==> exists k :: 0 <= k < |items| && InItem(items[k], i)
    decreases |items|
  {
    if |items| > 1 {
      var n := |items| - 1;
      FrontIsPartition(items, length);
      EntryIsDealt(items[..n], items[n].start, i);
      ItemsApart(items, length);
      if k :| 0 <= k < |items[..n]| && InItem(items[..n][k], i) {
        assert InItem(items[k], i);
      }
      if k :| 0 <= k < |items| && InItem(items[k], i) {
        assert k == n || InItem(items[..n][k], i);
        assert items[k].end <= length;
      }
      if items[n].start <= i < length {
        assert InItem(items[n], i);
      }
    } else if items != [] {
      assert items[0].start == 0 && items[0].end == length;
      assert i < length ==> InItem(items[0], i);
    }
  }

  /** No two work items overlap. */
  lemma {:induction false} ItemsApart(items: seq<WorkItem>, length: nat)
    requires IsPartition(items, length)
    ensures forall k, l :: 0 <= k < l < |items| ==> items[k].end <= items[l].start
    ensures forall k :: 0 <= k < |items| ==> items[k].end <= length
    decreases |items|
  {
    if |items| > 1 {
      var n := |items| - 1;
      FrontIsPartition(items, length);
      ItemsApart(items[..n], items[n].start);
      assert forall k :: 0 <= k < n ==> items[..n][k] == items[k];
    }
  }

  /** The number of items stays below twice the intended bound, but within the bound itself only for few entries
      or a multiple of it: 19999 entries are dealt out as 19999 items. */
  lemma WorkItemsBound(length: nat)
    ensures var n := (length + StepOf(length) - 1) / StepOf(length);
            && n < 2 * MAX_WORK_ITEMS
            && (n <= MAX_WORK_ITEMS <==> length <= MAX_WORK_ITEMS || length % MAX_WORK_ITEMS == 0)
  {
    var q, r := length / MAX_WORK_ITEMS, length % MAX_WORK_ITEMS;
    if q >= 1 {
      var extra := (r + q - 1) / q;
      assert length + q - 1 == MAX_WORK_ITEMS * q + (r + q - 1);
      var rem := (r + q - 1) % q;
      assert r + q - 1 == extra * q + rem;
      assert length + q - 1 == (MAX_WORK_ITEMS + extra) * q + rem;
      QuotientIs(length + q - 1, q, MAX_WORK_ITEMS + extra, rem);
      ExtraItems(r, q, extra);
    }
  }

  lemma TooManyItems()
    ensures (19999 + StepOf(19999) - 1) / StepOf(19999) == 19999 > MAX_WORK_ITEMS
  {
    WorkItemsBound(19999);
  }

  lemma ExtraItems(r: nat, q: nat, extra: nat)
    requires q >= 1 && r < MAX_WORK_ITEMS && extra == (r + q - 1) / q
    ensures extra < MAX_WORK_ITEMS && (extra == 0 <==> r == 0)
  {
    var rem := (r + q - 1) % q;
    assert r + q - 1 == extra * q + rem;
    MultipleIsFar(extra, q);
    MultipleIsFar(extra - MAX_WORK_ITEMS, q);
    assert extra * q == (extra - MAX_WORK_ITEMS) * q + MAX_WORK_ITEMS * q;
  }
}
