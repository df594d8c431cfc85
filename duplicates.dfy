/**
 * `find_duplicate_files` (src/fs_service/search/files.rs): the candidate files are bucketed by
 * size, then by a hash of their first 4096 bytes, then by a hash of their whole contents, and
 * every stage drops the buckets that hold a single file.
 *
 * A `HashMap` iterates in an unspecified order; the buckets here come in the order their keys
 * first appear.
 */
module Duplicates {
  import opened Wrappers
  import opened Paths
  import opened FsTree
  import G = PathGuard
  import S = FileSearch

  /** The distinct keys of `xs`, in the order they first appear. */
  function KeysOf<T(!new), K(==,!new)>(xs: seq<T>, key: T -> K): (r: seq<K>)
    ensures forall i, j :: 0 <= i < j < |r| ==> r[i] != r[j]
    ensures forall k :: k in r <==> exists x :: x in xs && key(x) == k
  {
    if |xs| == 0 then []
    else
      var init := xs[..|xs| - 1];
      var ks := KeysOf(init, key);
      var last := xs[|xs| - 1];
      assert xs == init + [last];
      if key(last) in ks then ks else ks + [key(last)]
  }

  /** The bucket of key `k`: the elements of `xs` with that key, in order. */
  function Members<T(==,!new), K(==,!new)>(xs: seq<T>, key: T -> K, k: K): (r: seq<T>)
    ensures forall x :: x in r <==> x in xs && key(x) == k
    ensures forall i :: 0 <= i < |r| ==> key(r[i]) == k
  {
    if |xs| == 0 then []
    else
      var init := xs[..|xs| - 1];
      var last := xs[|xs| - 1];
      assert xs == init + [last];
      Members(init, key, k) + (if key(last) == k then [last] else [])
  }

  /** The keys among `ks` whose bucket holds more than one element, in the order of `ks`. */
  function BigKeys<T(==,!new), K(==,!new)>(xs: seq<T>, key: T -> K, ks: seq<K>): (r: seq<K>)
    ensures forall k :: k in r <==> k in ks && |Members(xs, key, k)| > 1
  {
    if |ks| == 0 then []
    else
      var init := ks[..|ks| - 1];
      var k := ks[|ks| - 1];
      assert ks == init + [k];
      BigKeys(xs, key, init) + (if |Members(xs, key, k)| > 1 then [k] else [])
  }

  /** Filtering distinct keys keeps them distinct. */
  lemma {:induction false} BigKeysDistinct<T(!new), K(!new)>(xs: seq<T>, key: T -> K, ks: seq<K>)
    requires forall a, b :: 0 <= a < b < |ks| ==> ks[a] != ks[b]
    ensures forall a, b :: 0 <= a < b < |BigKeys(xs, key, ks)| ==> BigKeys(xs, key, ks)[a] != BigKeys(xs, key, ks)[b]
  {
    if |ks| > 0 {
      var init := ks[..|ks| - 1];
      var k := ks[|ks| - 1];
      assert k !in init by {
        forall a | 0 <= a < |init| ensures init[a] != k { assert init[a] == ks[a]; }
      }
      assert forall a, b :: 0 <= a < b < |init| ==> init[a] != init[b] by {
        forall a, b | 0 <= a < b < |init| ensures init[a] != init[b] {
          assert init[a] == ks[a] && init[b] == ks[b];
        }
      }
      BigKeysDistinct(xs, key, init);
    }
  }

  /** The buckets of the keys `ks`. */
  function Buckets<T(==,!new), K(==,!new)>(xs: seq<T>, key: T -> K, ks: seq<K>): (r: seq<seq<T>>)
    ensures |r| == |ks| && forall i :: 0 <= i < |ks| ==> r[i] == Members(xs, key, ks[i])
  {
    seq(|ks|, i requires 0 <= i < |ks| => Members(xs, key, ks[i]))
  }

  lemma BucketsSnoc<T(!new), K(!new)>(xs: seq<T>, key: T -> K, ks: seq<K>, k: K)
    ensures Buckets(xs, key, ks + [k]) == Buckets(xs, key, ks) + [Members(xs, key, k)]
  {
  }

  /** The keys of the buckets a stage keeps. */
  function StageKeys<T(==,!new), K(==,!new)>(xs: seq<T>, key: T -> K): seq<K> {
    BigKeys(xs, key, KeysOf(xs, key))
  }

  /** A bucketing stage: the buckets of `xs` by `key` that hold at least two elements. */
  function BigGroups<T(==,!new), K(==,!new)>(xs: seq<T>, key: T -> K): seq<seq<T>> {
    Buckets(xs, key, StageKeys(xs, key))
  }

  function Flatten<T>(gs: seq<seq<T>>): seq<T> {
    if |gs| == 0 then [] else Flatten(gs[..|gs| - 1]) + gs[|gs| - 1]
  }

  lemma {:induction false} FlattenMember<T>(gs: seq<seq<T>>, x: T)
    ensures x in Flatten(gs) <==> exists i :: 0 <= i < |gs| && x in gs[i]
  {
    if |gs| > 0 {
      FlattenMember(gs[..|gs| - 1], x);
      assert forall i :: 0 <= i < |gs| - 1 ==> gs[..|gs| - 1][i] == gs[i];
    }
  }

  /** Two distinct elements of one sequence: it has at least two elements. */
  lemma TwoDistinct<T>(s: seq<T>, x: T, y: T)
    requires x in s && y in s && x != y
    ensures |s| > 1
  {
    var i :| 0 <= i < |s| && s[i] == x;
    var j :| 0 <= j < |s| && s[j] == y;
    assert i != j;
  }

  /** Every bucket of a stage holds at least two elements that share one key. */
  lemma {:induction false} BigGroupsShareKey<T(!new), K(!new)>(xs: seq<T>, key: T -> K, i: nat)
    requires i < |BigGroups(xs, key)|
    ensures |BigGroups(xs, key)[i]| > 1
    ensures forall x :: x in BigGroups(xs, key)[i] ==> key(x) == StageKeys(xs, key)[i]
  {
    assert StageKeys(xs, key)[i] in StageKeys(xs, key);
  }

  /** No element lies in two buckets of a stage. */
  lemma BigGroupsDisjoint<T(!new), K(!new)>(xs: seq<T>, key: T -> K, i: nat, j: nat, x: T)
    requires i < |BigGroups(xs, key)| && j < |BigGroups(xs, key)| && i != j
    requires x in BigGroups(xs, key)[i]
    ensures x !in BigGroups(xs, key)[j]
  {
    var bk := StageKeys(xs, key);
    BigKeysDistinct(xs, key, KeysOf(xs, key));
    if i < j { assert bk[i] != bk[j]; } else { assert bk[j] != bk[i]; }
  }

  /** An element survives a stage iff some other element shares its bucket. */
  lemma BigGroupsSurvivors<T(!new), K(!new)>(xs: seq<T>, key: T -> K, x: T)
    ensures x in Flatten(BigGroups(xs, key)) <==> x in xs && |Members(xs, key, key(x))| > 1
  {
    var gs := BigGroups(xs, key);
    var bk := StageKeys(xs, key);
    FlattenMember(gs, x);
    if x in xs && |Members(xs, key, key(x))| > 1 {
      assert key(x) in bk;
      var i :| 0 <= i < |bk| && bk[i] == key(x);
      assert x in gs[i];
    }
  }

  /** Some group holds both `x` and `y`. */
  predicate InOneGroup<T(==)>(gs: seq<seq<T>>, x: T, y: T) {
    exists i :: 0 <= i < |gs| && x in gs[i] && y in gs[i]
  }

  /** Two distinct elements with one key end up in the same bucket. */
  lemma BigGroupsComplete<T(!new), K(!new)>(xs: seq<T>, key: T -> K, x: T, y: T)
    requires x in xs && y in xs && x != y && key(x) == key(y)
    ensures InOneGroup(BigGroups(xs, key), x, y)
  {
    var m := Members(xs, key, key(x));
    TwoDistinct(m, x, y);
    var bk := StageKeys(xs, key);
    assert key(x) in bk;
    var i :| 0 <= i < |bk| && bk[i] == key(x);
    assert BigGroups(xs, key)[i] == m;
  }

  /** Bytes read by the quick hash: the first 4096. */
  const QuickHashBytes: nat := 4096

  function SizeKey(e: Entry): nat {
    if e.node.size.Some? then e.node.size.value else 0
  }

  function Content(e: Entry): string {
    if e.node.content.Some? then e.node.content.value else ""
  }

  function QuickKey(digest: string -> string, e: Entry): string {
    var c := Content(e);
    digest(c[..if |c| < QuickHashBytes then |c| else QuickHashBytes])
  }

  function FullKey(digest: string -> string, e: Entry): string {
    digest(Content(e))
  }

  predicate HasSize(e: Entry) { e.node.size.Some? }

  predicate Readable(e: Entry) { e.node.content.Some? }

  function QuickKeyOf(digest: string -> string): Entry -> string {
    e => QuickKey(digest, e)
  }

  function FullKeyOf(digest: string -> string): Entry -> string {
    e => FullKey(digest, e)
  }

  function Sized(files: seq<Entry>): seq<Entry> {
    S.Select(files, HasSize)
  }

  /** The entries the quick hash reads: readable files that share their size with another. */
  function QuickItems(files: seq<Entry>): seq<Entry> {
    S.Select(Flatten(BigGroups(Sized(files), SizeKey)), Readable)
  }

  function FullItems(files: seq<Entry>, digest: string -> string): seq<Entry> {
    S.Select(Flatten(BigGroups(QuickItems(files), QuickKeyOf(digest))), Readable)
  }

  /** The three stages over the candidate files, as entries. */
  function DuplicateGroups(files: seq<Entry>, digest: string -> string): seq<seq<Entry>> {
    BigGroups(FullItems(files, digest), FullKeyOf(digest))
  }

  /** Every reported group holds at least two files with readable, equally hashed contents. */
  lemma GroupsShareFullHash(files: seq<Entry>, digest: string -> string, i: nat)
    requires i < |DuplicateGroups(files, digest)|
    ensures |DuplicateGroups(files, digest)[i]| > 1
    ensures forall x, y :: x in DuplicateGroups(files, digest)[i] && y in DuplicateGroups(files, digest)[i] ==>
      digest(Content(x)) == digest(Content(y))
    ensures forall x :: x in DuplicateGroups(files, digest)[i] ==> x.node.content.Some? && x.node.size.Some?
  {
    var key := FullKeyOf(digest);
    BigGroupsShareKey(FullItems(files, digest), key, i);
    forall x | x in DuplicateGroups(files, digest)[i]
      ensures x.node.content.Some? && x.node.size.Some?
    {
      FlattenMember(DuplicateGroups(files, digest), x);
      ReportedShareSize(files, digest, x);
    }
  }

  /** When the hash is injective, the files of a group have identical contents. */
  lemma GroupsIdentical(files: seq<Entry>, digest: string -> string, i: nat)
    requires forall a, b :: digest(a) == digest(b) ==> a == b
    requires i < |DuplicateGroups(files, digest)|
    ensures forall x, y :: x in DuplicateGroups(files, digest)[i] && y in DuplicateGroups(files, digest)[i] ==>
      x.node.content == y.node.content
  {
    GroupsShareFullHash(files, digest, i);
  }

  /** Every file's recorded length is the length of its contents, where both can be read. */
  predicate LengthsMatchContents(files: seq<Entry>) {
    forall e :: e in files && e.node.size.Some? && e.node.content.Some? ==>
      e.node.size.value == |e.node.content.value|
  }

  /**
   * When the hash is injective and lengths agree with contents, the files of a group have the same
   * size (the quick-hash stage mixes sizes, so this rests on the full hash).
   */
  lemma GroupsShareSize(files: seq<Entry>, digest: string -> string, i: nat)
    requires forall a, b :: digest(a) == digest(b) ==> a == b
    requires LengthsMatchContents(files)
    requires i < |DuplicateGroups(files, digest)|
    ensures forall x, y :: x in DuplicateGroups(files, digest)[i] && y in DuplicateGroups(files, digest)[i] ==>
      x.node.size == y.node.size
  {
    var g := DuplicateGroups(files, digest)[i];
    GroupsIdentical(files, digest, i);
    forall x | x in g ensures x in files && x.node.size.Some? && x.node.content.Some? {
      FlattenMember(DuplicateGroups(files, digest), x);
      ReportedShareSize(files, digest, x);
    }
  }

  /** A file appears in at most one group. */
  lemma GroupsDisjoint(files: seq<Entry>, digest: string -> string, i: nat, j: nat, x: Entry)
    requires i < |DuplicateGroups(files, digest)| && j < |DuplicateGroups(files, digest)| && i != j
    requires x in DuplicateGroups(files, digest)[i]
    ensures x !in DuplicateGroups(files, digest)[j]
  {
    BigGroupsDisjoint(FullItems(files, digest), FullKeyOf(digest), i, j, x);
  }

  /** Whatever is reported or hashed is a readable-size file sharing its size with another. */
  lemma ReportedShareSize(files: seq<Entry>, digest: string -> string, x: Entry)
    requires x in QuickItems(files) || x in FullItems(files, digest) || x in Flatten(DuplicateGroups(files, digest))
    ensures x in files && x.node.size.Some?
    ensures |Members(Sized(files), SizeKey, SizeKey(x))| > 1
    ensures x.node.content.Some?
  {
    var full := FullItems(files, digest);
    BigGroupsSurvivors(full, FullKeyOf(digest), x);
    var quick := QuickItems(files);
    BigGroupsSurvivors(quick, QuickKeyOf(digest), x);
    BigGroupsSurvivors(Sized(files), SizeKey, x);
  }

  /**
   * A file whose size no other candidate shares is never hashed and never reported.
   */
  lemma UniqueSizeNeverReported(files: seq<Entry>, digest: string -> string, x: Entry)
    requires |Members(Sized(files), SizeKey, SizeKey(x))| <= 1
    ensures x !in QuickItems(files)
    ensures x !in Flatten(DuplicateGroups(files, digest))
  {
    if x in QuickItems(files) || x in Flatten(DuplicateGroups(files, digest)) {
      ReportedShareSize(files, digest, x);
    }
  }

  /**
   * Completeness: two distinct candidate files with readable metadata of one size and identical
   * readable contents are reported in the same group.
   */
  lemma SameContentGrouped(files: seq<Entry>, digest: string -> string, x: Entry, y: Entry)
    requires x in files && y in files && x != y
    requires x.node.size.Some? && x.node.size == y.node.size
    requires x.node.content.Some? && x.node.content == y.node.content
    ensures InOneGroup(DuplicateGroups(files, digest), x, y)
  {
    BothQuick(files, x, y);
    BothFull(files, digest, x, y);
    var key := FullKeyOf(digest);
    assert Content(x) == Content(y);
    assert key(x) == FullKey(digest, x) && key(y) == FullKey(digest, y);
    BigGroupsComplete(FullItems(files, digest), key, x, y);
  }

  lemma BothQuick(files: seq<Entry>, x: Entry, y: Entry)
    requires x in files && y in files && x != y
    requires x.node.size.Some? && x.node.size == y.node.size
    requires x.node.content.Some? && x.node.content == y.node.content
    ensures x in QuickItems(files) && y in QuickItems(files)
  {
    var sized := Sized(files);
    BigGroupsSurvivors(sized, SizeKey, x);
    BigGroupsSurvivors(sized, SizeKey, y);
    TwoDistinct(Members(sized, SizeKey, SizeKey(x)), x, y);
  }

  lemma BothFull(files: seq<Entry>, digest: string -> string, x: Entry, y: Entry)
    requires x in QuickItems(files) && y in QuickItems(files) && x != y
    requires x.node.content.Some? && x.node.content == y.node.content
    ensures x in FullItems(files, digest) && y in FullItems(files, digest)
  {
    var quick := QuickItems(files);
    var qk := QuickKeyOf(digest);
    BigGroupsSurvivors(quick, qk, x);
    BigGroupsSurvivors(quick, qk, y);
    TwoDistinct(Members(quick, qk, qk(x)), x, y);
  }

  /** `Select` of `es + [x]`. */
  lemma {:induction false} SelectSnoc(es: seq<Entry>, x: Entry, f: Entry -> bool)
    ensures S.Select(es + [x], f) == S.Select(es, f) + (if f(x) then [x] else [])
  {
    if |es| > 0 {
      assert (es + [x])[1..] == es[1..] + [x];
      SelectSnoc(es[1..], x, f);
    }
  }

  predicate IsFile(e: Entry) { e.node.kind == File }

  /** The paths of the groups (`entry.path().to_str()`). */
  function PathGroups(gs: seq<seq<Entry>>): (r: seq<seq<Path>>)
    ensures |r| == |gs|
    ensures forall i :: 0 <= i < |gs| ==> |r[i]| == |gs[i]|
    ensures forall i, j :: 0 <= i < |gs| && 0 <= j < |gs[i]| ==> r[i][j] == gs[i][j].path
  {
    seq(|gs|, i requires 0 <= i < |gs| => seq(|gs[i]|, j requires 0 <= j < |gs[i]| => gs[i][j].path))
  }

  /**
   * `find_duplicate_files` as one expression: validate the root, search it (the pattern defaults
   * to `DefaultPattern`, the excludes to none), keep the files, and run the three stages.
   */
  function DuplicateFiles(h: G.Host, g: S.Globs, allowed: seq<Path>, root: Path, tree: Option<Node>,
                          pattern: Option<string>, excludes: Option<seq<string>>,
                          minBytes: Option<nat>, maxBytes: Option<nat>, digest: string -> string)
    : SResult<seq<seq<Path>>>
  {
    var valid :- G.ValidatePath(h, root, allowed);
    var entries :- S.SearchFiles(h, g, S.Split, allowed, SearchQuery(valid, pattern, excludes, minBytes, maxBytes), tree);
    Ok(PathGroups(DuplicateGroups(S.Select(entries, IsFile), digest)))
  }

  /** The search the stages start from: the pattern defaults to `DefaultPattern`, the excludes to none. */
  function SearchQuery(root: Path, pattern: Option<string>, excludes: Option<seq<string>>,
                       minBytes: Option<nat>, maxBytes: Option<nat>): S.Query {
    S.Query(root, if pattern.Some? then pattern.value else DefaultPattern,
            if excludes.Some? then excludes.value else [], minBytes, maxBytes)
  }

  const DefaultPattern: string := "**/*"

  /** The `HashMap<K, Vec<T>>` that pushing the elements of `xs` in order builds. */
  function GroupsMap<T(!new), K(!new)>(xs: seq<T>, key: T -> K): map<K, seq<T>> {
    if |xs| == 0 then map[]
    else
      var m := GroupsMap(xs[..|xs| - 1], key);
      var last := xs[|xs| - 1];
      m[key(last) := (if key(last) in m then m[key(last)] else []) + [last]]
  }

  /** The map holds exactly the keys seen, each with its bucket. */
  lemma GroupsMapBuckets<T(!new), K(!new)>(xs: seq<T>, key: T -> K)
    ensures forall k :: k in GroupsMap(xs, key) <==> k in KeysOf(xs, key)
    ensures forall k :: k in GroupsMap(xs, key) ==> GroupsMap(xs, key)[k] == Members(xs, key, k)
  {
    GroupsMapKeys(xs, key);
    GroupsMapMembers(xs, key);
  }

  lemma {:induction false} GroupsMapKeys<T(!new), K(!new)>(xs: seq<T>, key: T -> K)
    ensures forall k :: k in GroupsMap(xs, key) <==> k in KeysOf(xs, key)
  {
    if |xs| > 0 {
      var init := xs[..|xs| - 1];
      GroupsMapKeys(init, key);
      assert xs == init + [xs[|xs| - 1]];
    }
  }

  lemma {:induction false} GroupsMapMembers<T(!new), K(!new)>(xs: seq<T>, key: T -> K)
    ensures forall k :: k in GroupsMap(xs, key) ==> GroupsMap(xs, key)[k] == Members(xs, key, k)
  {
    if |xs| > 0 {
      var init := xs[..|xs| - 1];
      var last := xs[|xs| - 1];
      GroupsMapMembers(init, key);
      assert xs == init + [last];
      if key(last) !in GroupsMap(init, key) {
        GroupsMapKeys(init, key);
        MembersOfUnseenKey(init, key, key(last));
      }
    }
  }

  /** A key no element has has an empty bucket. */
  lemma {:induction false} MembersOfUnseenKey<T(!new), K(!new)>(xs: seq<T>, key: T -> K, k: K)
    requires k !in KeysOf(xs, key)
    ensures Members(xs, key, k) == []
  {
    if |xs| > 0 {
      var init := xs[..|xs| - 1];
      assert xs == init + [xs[|xs| - 1]];
      assert key(xs[|xs| - 1]) != k;
      forall y | y in init ensures key(y) != k {
        assert y in xs;
      }
      MembersOfUnseenKey(init, key, k);
    }
  }

  /** The keys, in first-appearance order, and the map after pushing the elements of `done`. */
  ghost predicate BucketState<T(!new), K(!new)>(keys: seq<K>, groups: map<K, seq<T>>, done: seq<T>, key: T -> K) {
    keys == KeysOf(done, key) && groups == GroupsMap(done, key)
  }

  /** `map.entry(key(x)).or_default().push(x)`. */
  method Push<T(==,!new), K(==,!new)>(keys: seq<K>, groups: map<K, seq<T>>, x: T, key: T -> K, ghost done: seq<T>)
    returns (keys': seq<K>, groups': map<K, seq<T>>)
    requires BucketState(keys, groups, done, key)
    ensures BucketState(keys', groups', done + [x], key)
  {
    var k := key(x);
    assert (done + [x])[..|done|] == done;
    assert (done + [x])[|done|] == x;
    assert GroupsMap(done + [x], key) == groups[k := (if k in groups then groups[k] else []) + [x]];
    GroupsMapBuckets(done, key);
    if k in groups {
      keys' := keys;
      groups' := groups[k := groups[k] + [x]];
    } else {
      keys' := keys + [k];
      groups' := groups[k := [x]];
      assert [] + [x] == [x];
    }
    assert groups' == GroupsMap(done + [x], key);
  }

  /** `map.into_iter().filter(|(_, v)| v.len() > 1)`: the buckets with at least two elements. */
  method Kept<T(==,!new), K(==,!new)>(keys: seq<K>, groups: map<K, seq<T>>, key: T -> K, ghost done: seq<T>)
    returns (out: seq<seq<T>>)
    requires BucketState(keys, groups, done, key)
    ensures out == BigGroups(done, key)
  {
    out := [];
    for i := 0 to |keys|
      invariant out == Buckets(done, key, BigKeys(done, key, keys[..i]))
    {
      var k := keys[i];
      BucketAt(keys, groups, done, key, i);
      var m := groups[k];
      KeptStep(done, key, keys, i);
      if |m| > 1 {
        out := out + [m];
      }
    }
    assert keys[..|keys|] == keys;
  }

  /** The map holds the bucket of every key it lists. */
  lemma BucketAt<T(!new), K(!new)>(keys: seq<K>, groups: map<K, seq<T>>, done: seq<T>, key: T -> K, i: nat)
    requires BucketState(keys, groups, done, key) && i < |keys|
    ensures keys[i] in groups && groups[keys[i]] == Members(done, key, keys[i])
  {
    GroupsMapBuckets(done, key);
    assert keys[i] in keys;
  }

  /** One step of `Kept`: the next key's bucket is appended when it holds two elements or more. */
  lemma KeptStep<T(!new), K(!new)>(xs: seq<T>, key: T -> K, ks: seq<K>, i: nat)
    requires i < |ks|
    ensures Buckets(xs, key, BigKeys(xs, key, ks[..i + 1])) ==
      Buckets(xs, key, BigKeys(xs, key, ks[..i])) +
      (if |Members(xs, key, ks[i])| > 1 then [Members(xs, key, ks[i])] else [])
  {
    assert ks[..i + 1][..i] == ks[..i];
    var before := BigKeys(xs, key, ks[..i]);
    if |Members(xs, key, ks[i])| > 1 {
      BucketsSnoc(xs, key, before, ks[i]);
    } else {
      assert BigKeys(xs, key, ks[..i + 1]) == before + [];
    }
  }

  /**
   * One hashing stage over the buckets kept by the previous one: every readable file of every
   * bucket is hashed and pushed into one shared map.
   */
  method Rebucket(gs: seq<seq<Entry>>, key: Entry -> string)
    returns (keys: seq<string>, groups: map<string, seq<Entry>>, ghost done: seq<Entry>)
    ensures done == S.Select(Flatten(gs), Readable)
    ensures BucketState(keys, groups, S.Select(Flatten(gs), Readable), key)
  {
    keys, groups, done := [], map[], [];
    for i := 0 to |gs|
      invariant done == S.Select(Flatten(gs[..i]), Readable)
      invariant BucketState(keys, groups, done, key)
    {
      ghost var before := done;
      keys, groups, done := PushReadable(keys, groups, gs[i], key, done);
      assert gs[..i + 1][..i] == gs[..i];
      assert Flatten(gs[..i + 1]) == Flatten(gs[..i]) + gs[i];
      S.SelectAppend(Flatten(gs[..i]), gs[i], Readable);
    }
    assert gs[..|gs|] == gs;
  }

  /** The inner loop of a hashing stage: the readable files of one bucket, pushed in order. */
  method PushReadable(keys: seq<string>, groups: map<string, seq<Entry>>, paths: seq<Entry>,
                      key: Entry -> string, ghost done: seq<Entry>)
    returns (keys': seq<string>, groups': map<string, seq<Entry>>, ghost done': seq<Entry>)
    requires BucketState(keys, groups, done, key)
    ensures done' == done + S.Select(paths, Readable)
    ensures BucketState(keys', groups', done + S.Select(paths, Readable), key)
  {
    keys', groups', done' := keys, groups, done;
    for j := 0 to |paths|
      invariant done' == done + S.Select(paths[..j], Readable)
      invariant BucketState(keys', groups', done', key)
    {
      ReadableStep(done, paths, j);
      if paths[j].node.content.Some? {
        keys', groups' := Push(keys', groups', paths[j], key, done');
        done' := done' + [paths[j]];
      }
    }
    assert paths[..|paths|] == paths;
  }

  lemma ReadableStep(done: seq<Entry>, paths: seq<Entry>, j: nat)
    requires j < |paths|
    ensures done + S.Select(paths[..j + 1], Readable) ==
      (done + S.Select(paths[..j], Readable)) + (if Readable(paths[j]) then [paths[j]] else [])
  {
    assert paths[..j + 1] == paths[..j] + [paths[j]];
    SelectSnoc(paths[..j], paths[j], Readable);
  }

  lemma SizedStep(files: seq<Entry>, i: nat)
    requires i < |files|
    ensures Sized(files[..i + 1]) == Sized(files[..i]) + (if HasSize(files[i]) then [files[i]] else [])
  {
    assert files[..i + 1] == files[..i] + [files[i]];
    SelectSnoc(files[..i], files[i], HasSize);
  }

  /** Files whose metadata cannot be read are skipped; the others are pushed under their size. */
  method SizeBuckets(files: seq<Entry>) returns (sizes: seq<nat>, sizeMap: map<nat, seq<Entry>>, ghost sized: seq<Entry>)
    ensures sized == Sized(files)
    ensures BucketState(sizes, sizeMap, Sized(files), SizeKey)
  {
    sizes, sizeMap, sized := [], map[], [];
    for i := 0 to |files|
      invariant sized == Sized(files[..i])
      invariant BucketState(sizes, sizeMap, sized, SizeKey)
    {
      SizedStep(files, i);
      if files[i].node.size.Some? {
        sizes, sizeMap := Push(sizes, sizeMap, files[i], SizeKey, sized);
        sized := sized + [files[i]];
      }
    }
    assert files[..|files|] == files;
  }

  /** `find_duplicate_files`: the loops of the source, proved to compute `DuplicateFiles`. */
  method FindDuplicateFiles(h: G.Host, g: S.Globs, allowed: seq<Path>, root: Path, tree: Option<Node>,
                            pattern: Option<string>, excludes: Option<seq<string>>,
                            minBytes: Option<nat>, maxBytes: Option<nat>, digest: string -> string)
    returns (r: SResult<seq<seq<Path>>>)
    ensures r == DuplicateFiles(h, g, allowed, root, tree, pattern, excludes, minBytes, maxBytes, digest)
  {
    var valid := G.ValidatePath(h, root, allowed);
    if valid.Err? {
      return Err(valid.error);
    }
    var search := S.SearchFiles(h, g, S.Split, allowed, SearchQuery(valid.value, pattern, excludes, minBytes, maxBytes), tree);
    if search.Err? {
      return Err(search.error);
    }
    var files := S.Select(search.value, IsFile);
    var groups := Stages(files, digest);
    return Ok(PathGroups(groups));
  }

  /** The three grouping stages of `find_duplicate_files` over the candidate files. */
  method Stages(files: seq<Entry>, digest: string -> string) returns (duplicates: seq<seq<Entry>>)
    ensures duplicates == DuplicateGroups(files, digest)
  {
    // Step 1: group by size.
    var sizes, sizeMap, sized := SizeBuckets(files);
    var sizeGroups := Kept(sizes, sizeMap, SizeKey, sized);

    // Step 2: group by the hash of the first 4096 bytes.
    var quickKeys, quickMap, quickDone := Rebucket(sizeGroups, QuickKeyOf(digest));
    var quickGroups := Kept(quickKeys, quickMap, QuickKeyOf(digest), quickDone);

    // Step 3: group by the hash of the whole contents.
    var fullKeys, fullMap, fullDone := Rebucket(quickGroups, FullKeyOf(digest));
    duplicates := Kept(fullKeys, fullMap, FullKeyOf(digest), fullDone);
  }
}
