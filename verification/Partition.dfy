/** Which findings are merged with which, and the partition that decides it. */
module Partitioning {
  import opened Text
  import opened Orders
  import opened Evidences
  import opened Findings
  import opened Merging

  // ---- identity and compatibility ----

  datatype Identity = Identity(code: string, subject: Subject)

  function IdentityOf(f: Finding): Identity {
    Identity(f.code, f.subject)
  }

  function CompareIdentity(a: Identity, b: Identity): int {
    var code := Compare(a.code, b.code);
    if code != 0 then code
    else
      var kind := CompareInt(a.subject.kind.Rank(), b.subject.kind.Rank());
      if kind != 0 then kind else Compare(a.subject.ref, b.subject.ref)
  }

  datatype MergeKey = MergeKey(layer: Layer, summary: string, detail: string, discriminator: string) {
    predicate SameClaimAs(other: MergeKey) {
      layer == other.layer && summary == other.summary && detail == other.detail
    }
  }

  /** mergeable: what two findings of one identity must agree on to be merged. */
  function KeyOf(f: Finding): MergeKey {
    MergeKey(f.layer, f.summary, f.detail, f.discriminator)
  }

  function CompareKey(a: MergeKey, b: MergeKey): int {
    var layer := CompareInt(a.layer.Rank(), b.layer.Rank());
    if layer != 0 then layer
    else
      var summary := Compare(a.summary, b.summary);
      if summary != 0 then summary
      else
        var detail := Compare(a.detail, b.detail);
        if detail != 0 then detail else Compare(a.discriminator, b.discriminator)
  }

  lemma IdentityOrder()
    ensures TotalPreorder(CompareIdentity)
    ensures forall a, b :: CompareIdentity(a, b) == 0 <==> a == b
  {
    forall a, b
      ensures CompareIdentity(a, b) == -CompareIdentity(b, a)
      ensures CompareIdentity(a, b) == 0 <==> a == b
    {
      IdentityFlip(a, b);
    }
    forall a, b, c | CompareIdentity(a, b) <= 0 && CompareIdentity(b, c) <= 0 ensures CompareIdentity(a, c) <= 0 {
      IdentityTransitive(a, b, c);
    }
  }

  lemma IdentityFlip(a: Identity, b: Identity)
    ensures CompareIdentity(a, b) == -CompareIdentity(b, a)
    ensures CompareIdentity(a, b) == 0 <==> a == b
  {
    hide Compare;
    CompareFlip(a.code, b.code);
    CompareFlip(a.subject.ref, b.subject.ref);
    CompareZero(a.code, b.code);
    CompareZero(a.subject.ref, b.subject.ref);
  }

  lemma IdentityTransitive(a: Identity, b: Identity, c: Identity)
    requires CompareIdentity(a, b) <= 0 && CompareIdentity(b, c) <= 0
    ensures CompareIdentity(a, c) <= 0
  {
    hide Compare;
    CompareChain(a.code, b.code, c.code);
    CompareChain(a.subject.ref, b.subject.ref, c.subject.ref);
  }

  lemma KeyOrder()
    ensures TotalPreorder(CompareKey)
    ensures forall a, b :: CompareKey(a, b) == 0 <==> a == b
  {
    forall a, b
      ensures CompareKey(a, b) == -CompareKey(b, a)
      ensures CompareKey(a, b) == 0 <==> a == b
    {
      KeyFlip(a, b);
    }
    forall a, b, c | CompareKey(a, b) <= 0 && CompareKey(b, c) <= 0 ensures CompareKey(a, c) <= 0 {
      KeyTransitive(a, b, c);
    }
  }

  lemma KeyFlip(a: MergeKey, b: MergeKey)
    ensures CompareKey(a, b) == -CompareKey(b, a)
    ensures CompareKey(a, b) == 0 <==> a == b
  {
    hide Compare;
    CompareFlip(a.summary, b.summary);
    CompareFlip(a.detail, b.detail);
    CompareFlip(a.discriminator, b.discriminator);
    CompareZero(a.summary, b.summary);
    CompareZero(a.detail, b.detail);
    CompareZero(a.discriminator, b.discriminator);
  }

  lemma KeyTransitive(a: MergeKey, b: MergeKey, c: MergeKey)
    requires CompareKey(a, b) <= 0 && CompareKey(b, c) <= 0
    ensures CompareKey(a, c) <= 0
  {
    hide Compare;
    CompareChain(a.summary, b.summary, c.summary);
    CompareChain(a.detail, b.detail, c.detail);
    CompareChain(a.discriminator, b.discriminator, c.discriminator);
  }

  // ---- which findings are merged with which ----

  ghost predicate Asked(s: seq<Finding>, claim: Claim, question: string) {
    question != "" && exists f :: f in s && ClaimOf(f) == claim && f.discriminator == question
  }

  /** At most one question is asked about the claim anywhere in s. */
  ghost predicate Undivided(s: seq<Finding>, claim: Claim) {
    forall p, q :: Asked(s, claim, p) && Asked(s, claim, q) ==> p == q
  }

  /** Two findings of s belong to one merge: the same claim, and either the same
  discriminator or a claim about which s asks at most one question. */
  ghost predicate Mates(s: seq<Finding>, f: Finding, g: Finding) {
    ClaimOf(f) == ClaimOf(g) && (f.discriminator == g.discriminator || Undivided(s, ClaimOf(f)))
  }

  /** group holds exactly f's mates in s, with their multiplicity, in some order. */
  ghost predicate IsGroup(s: seq<Finding>, f: Finding, group: seq<Finding>) {
    forall x :: multiset(group)[x] == if Mates(s, f, x) then multiset(s)[x] else 0
  }

  // ---- filing findings under a key ----

  /** keys lists every key of s, once. */
  ghost predicate KeysBy<K>(s: seq<Finding>, key: Finding -> K, keys: seq<K>) {
    && Distinct(keys)
    && (forall f :: f in s ==> key(f) in keys)
    && (forall k :: k in keys ==> exists f :: f in s && key(f) == k)
  }

  /** The bucket holds exactly the findings of s filed under one key. */
  ghost predicate Holds<K>(s: seq<Finding>, key: Finding -> K, k: K, bucket: seq<AttributedFinding>) {
    forall x :: multiset(FindingsOf(bucket))[x] == if key(x) == k then multiset(s)[x] else 0
  }

  function Bucket<K>(buckets: map<K, seq<AttributedFinding>>, k: K): seq<AttributedFinding> {
    if k in buckets then buckets[k] else []
  }

  /** Every finding of s is in the bucket of its key, and keys lists the buckets. */
  ghost predicate Filed<K(
    !new)>(s: seq<Finding>, key: Finding -> K, keys: seq<K>, buckets: map<K, seq<AttributedFinding>>)
  {
    && KeysBy(s, key, keys)
    && (forall k :: k in keys <==> k in buckets)
    && (forall k :: Holds(s, key, k, Bucket(buckets, k)))
  }

  lemma HoldsNothing<K>(key: Finding -> K, k: K)
    ensures Holds([], key, k, [])
  {
  }

  lemma HoldsNext<K>(s: seq<Finding>, key: Finding -> K, k: K, bucket: seq<AttributedFinding>, af: AttributedFinding)
    requires Holds(s, key, k, bucket)
    ensures Holds(s + [af.finding], key, k, if key(af.finding) == k then bucket + [af] else bucket)
  {
    assert FindingsOf(bucket + [af]) == FindingsOf(bucket) + [af.finding];
  }

  lemma FilingStarts<K(!new)>(key: Finding -> K)
    ensures Filed<K>([], key, [], map[])
  {
    hide Holds;
    forall k: K ensures Holds([], key, k, []) {
      HoldsNothing(key, k);
    }
  }

  /** Filing one more finding, under a key seen before or a new one. */
  lemma FilingNext<K(!new)>(
    s: seq<Finding>, key: Finding -> K, keys: seq<K>, buckets: map<K, seq<AttributedFinding>>, af: AttributedFinding)
    requires Filed(s, key, keys, buckets)
    ensures var k := key(af.finding);
      Filed(s + [af.finding], key, if k in buckets then keys else keys + [k], buckets[k := Bucket(buckets, k) + [af]])
  {
    hide Holds;
    var here := key(af.finding);
    var more := buckets[here := Bucket(buckets, here) + [af]];
    assert af.finding in s + [af.finding];
    forall k ensures Holds(s + [af.finding], key, k, Bucket(more, k)) {
      HoldsNext(s, key, k, Bucket(buckets, k), af);
    }
    var keys' := if here in buckets then keys else keys + [here];
    forall k | k in keys' ensures exists f :: f in s + [af.finding] && key(f) == k {
      if k in keys {
        var f :| f in s && key(f) == k;
        assert f in s + [af.finding];
      }
    }
  }

  // ---- partitionByCompatibility ----

  type Buckets = map<MergeKey, seq<AttributedFinding>>

  ghost predicate OneIdentity(s: seq<Finding>) {
    forall f, g :: f in s && g in s ==> IdentityOf(f) == IdentityOf(g)
  }

  ghost predicate KeysOf(s: seq<Finding>, keys: seq<MergeKey>) {
    KeysBy(s, KeyOf, keys)
  }

  method FillBuckets(group: seq<AttributedFinding>) returns (buckets: Buckets, keys: seq<MergeKey>)
    ensures Filed(FindingsOf(group), KeyOf, keys, buckets)
    ensures KeysOf(FindingsOf(group), keys)
  {
    hide Holds;
    ghost var s := FindingsOf(group);
    buckets, keys := map[], [];
    FilingStarts(KeyOf);
    var i := 0;
    while i < |group|
      invariant 0 <= i <= |group|
      invariant Filed(s[..i], KeyOf, keys, buckets)
    {
      var key := KeyOf(group[i].finding);
      FilingNext(s[..i], KeyOf, keys, buckets, group[i]);
      assert s[..i + 1] == s[..i] + [group[i].finding];
      if key !in buckets {
        keys := keys + [key];
      }
      buckets := buckets[key := Bucket(buckets, key) + [group[i]]];
      i := i + 1;
    }
    assert s[..i] == s;
  }

  // ---- folding a silent key into its host ----

  /** host asks a question about the claim key is silent on. */
  predicate Hosts(host: MergeKey, key: MergeKey) {
    host.discriminator != "" && host.SameClaimAs(key)
  }

  ghost predicate SoleHost(keys: seq<MergeKey>, key: MergeKey, host: MergeKey) {
    host in keys && Hosts(host, key) && forall other :: other in keys && Hosts(other, key) ==> other == host
  }

  /** A silent key with exactly one host does not survive on its own. */
  ghost predicate Folds(keys: seq<MergeKey>, key: MergeKey) {
    key.discriminator == "" && exists host :: SoleHost(keys, key, host)
  }

  /** The keys that could take the silent key in. */
  ghost function HostsOf(keys: seq<MergeKey>, key: MergeKey): set<MergeKey> {
    set k | k in keys && Hosts(k, key)
  }

  lemma HostsNext(keys: seq<MergeKey>, other: MergeKey, key: MergeKey)
    requires other !in keys
    ensures |HostsOf(keys + [other], key)| == |HostsOf(keys, key)| + if Hosts(other, key) then 1 else 0
  {
    hide Hosts;
    var before := HostsOf(keys, key);
    if Hosts(other, key) {
      assert HostsOf(keys + [other], key) == before + {other} && other !in before;
    } else {
      assert HostsOf(keys + [other], key) == before;
    }
  }

  /** Counts the hosts of one key, keeping the last. */
  method CountHosts(keys: seq<MergeKey>, key: MergeKey) returns (hosts: nat, host: MergeKey)
    requires Distinct(keys)
    ensures hosts == |HostsOf(keys, key)|
    ensures hosts == 1 ==> SoleHost(keys, key, host)
    ensures hosts != 1 ==> forall h :: !SoleHost(keys, key, h)
  {
    hosts, host := 0, key;
    assert HostsOf(keys[..0], key) == {};
    var i := 0;
    ghost var first: MergeKey := key;
    while i < |keys|
      invariant 0 <= i <= |keys|
      invariant hosts == |HostsOf(keys[..i], key)|
      invariant hosts == 0 ==> forall k :: k in keys[..i] ==> !Hosts(k, key)
      invariant hosts == 1 ==>
        host in keys[..i] && Hosts(host, key) && forall k :: k in keys[..i] && Hosts(k, key) ==> k == host
      invariant hosts > 1 ==>
        host in keys[..i] && first in keys[..i] && Hosts(host, key) && Hosts(first, key) && host != first
    {
      var other := keys[i];
      assert keys[..i + 1] == keys[..i] + [other];
      assert other !in keys[..i];
      HostsNext(keys[..i], other, key);
      if Hosts(other, key) {
        first := host;
        host := other;
        hosts := hosts + 1;
      }
      i := i + 1;
    }
    assert keys[..i] == keys;
  }

  /** Where the findings of x's key are after the first i keys were considered. */
  ghost predicate Goes(keys: seq<MergeKey>, done: seq<MergeKey>, x: MergeKey, k: MergeKey) {
    x == k || (x in done && x.discriminator == "" && SoleHost(keys, x, k))
  }

  ghost predicate HoldsFolded(
    s: seq<Finding>, keys: seq<MergeKey>, done: seq<MergeKey>, k: MergeKey, bucket: seq<AttributedFinding>)
  {
    forall x :: multiset(FindingsOf(bucket))[x] == if Goes(keys, done, KeyOf(x), k) then multiset(s)[x] else 0
  }

  ghost predicate Alive(keys: seq<MergeKey>, done: seq<MergeKey>, k: MergeKey) {
    k in keys && !(k in done && Folds(keys, k))
  }

  ghost predicate FoldedSoFar(s: seq<Finding>, keys: seq<MergeKey>, done: seq<MergeKey>, buckets: Buckets) {
    && (forall k :: k in buckets <==> Alive(keys, done, k))
    && (forall k :: k in buckets ==> HoldsFolded(s, keys, done, k, buckets[k]))
  }

  lemma FoldingStarts(s: seq<Finding>, keys: seq<MergeKey>, buckets: Buckets)
    requires Filed(s, KeyOf, keys, buckets)
    ensures FoldedSoFar(s, keys, [], buckets)
  {
    forall k | k in buckets ensures HoldsFolded(s, keys, [], k, buckets[k]) {
      assert Holds(s, KeyOf, k, Bucket(buckets, k));
    }
  }

  /** A key that asks a question, or has no sole host, stays where it is. */
  lemma FoldSkip(s: seq<Finding>, keys: seq<MergeKey>, done: seq<MergeKey>, key: MergeKey, buckets: Buckets)
    requires FoldedSoFar(s, keys, done, buckets) && !Folds(keys, key)
    ensures FoldedSoFar(s, keys, done + [key], buckets)
  {
    hide SoleHost;
    forall k ensures Alive(keys, done + [key], k) <==> Alive(keys, done, k) {
    }
    forall k | k in buckets ensures HoldsFolded(s, keys, done + [key], k, buckets[k]) {
      assert HoldsFolded(s, keys, done, k, buckets[k]);
      forall x ensures Goes(keys, done + [key], x, k) <==> Goes(keys, done, x, k) {
      }
    }
  }

  /** Moving a silent bucket into its sole host. */
  lemma FoldMove(
    s: seq<Finding>, keys: seq<MergeKey>, done: seq<MergeKey>, key: MergeKey, host: MergeKey, buckets: Buckets)
    requires FoldedSoFar(s, keys, done, buckets)
    requires key in keys && key !in done && key.discriminator == "" && SoleHost(keys, key, host)
    ensures key in buckets && host in buckets
    ensures FoldedSoFar(s, keys, done + [key], buckets[host := buckets[host] + buckets[key]] - {key})
  {
    hide HoldsFolded, SoleHost;
    HostIsLoud(keys, key, host);
    assert Alive(keys, done, host) && Alive(keys, done, key);
    assert host in buckets && key in buckets;
    assert Folds(keys, key);
    var after := buckets[host := buckets[host] + buckets[key]] - {key};
    forall k ensures k in after <==> Alive(keys, done + [key], k) {
      assert k in done + [key] <==> k in done || k == key;
    }
    forall k | k in after ensures HoldsFolded(s, keys, done + [key], k, after[k]) {
      if k == host {
        JoinBuckets(s, keys, done, key, host, buckets[host], buckets[key]);
      } else {
        OtherBucket(s, keys, done, key, host, k, buckets[k]);
      }
    }
  }

  lemma HostIsLoud(keys: seq<MergeKey>, key: MergeKey, host: MergeKey)
    requires SoleHost(keys, key, host)
    ensures host in keys && host.discriminator != "" && host.SameClaimAs(key)
    ensures forall k :: SoleHost(keys, key, k) ==> k == host
  {
  }

  lemma JoinBuckets(
    s: seq<Finding>, keys: seq<MergeKey>, done: seq<MergeKey>, key: MergeKey, host: MergeKey,
    loud: seq<AttributedFinding>, silent: seq<AttributedFinding>)
    requires key !in done && key.discriminator == "" && SoleHost(keys, key, host)
    requires HoldsFolded(s, keys, done, host, loud) && HoldsFolded(s, keys, done, key, silent)
    ensures HoldsFolded(s, keys, done + [key], host, loud + silent)
  {
    assert FindingsOf(loud + silent) == FindingsOf(loud) + FindingsOf(silent);
    forall x
      ensures multiset(FindingsOf(loud + silent))[x] ==
        if Goes(keys, done + [key], KeyOf(x), host) then multiset(s)[x] else 0
    {
      assert Goes(keys, done, KeyOf(x), key) <==> KeyOf(x) == key;
      assert Goes(keys, done + [key], KeyOf(x), host) <==> Goes(keys, done, KeyOf(x), host) || KeyOf(x) == key;
    }
  }

  lemma OtherBucket(
    s: seq<Finding>, keys: seq<MergeKey>, done: seq<MergeKey>, key: MergeKey, host: MergeKey, k: MergeKey,
    bucket: seq<AttributedFinding>)
    requires SoleHost(keys, key, host) && k != host && HoldsFolded(s, keys, done, k, bucket)
    ensures HoldsFolded(s, keys, done + [key], k, bucket)
  {
    HostIsLoud(keys, key, host);
    forall x ensures Goes(keys, done + [key], x, k) <==> Goes(keys, done, x, k) {
    }
  }

  method FoldSilent(ghost s: seq<Finding>, keys: seq<MergeKey>, filled: Buckets) returns (buckets: Buckets)
    requires Filed(s, KeyOf, keys, filled)
    ensures FoldedSoFar(s, keys, keys, buckets)
  {
    hide FoldedSoFar, SoleHost, Holds;
    FoldingStarts(s, keys, filled);
    buckets := filled;
    var i := 0;
    while i < |keys|
      invariant 0 <= i <= |keys|
      invariant FoldedSoFar(s, keys, keys[..i], buckets)
    {
      var key := keys[i];
      assert keys[..i + 1] == keys[..i] + [key];
      assert key !in keys[..i];
      if key.discriminator != "" {
        FoldSkip(s, keys, keys[..i], key, buckets);
        i := i + 1;
        continue;
      }
      var hosts, host := CountHosts(keys, key);
      if hosts != 1 {
        FoldSkip(s, keys, keys[..i], key, buckets);
        i := i + 1;
        continue;
      }
      FoldMove(s, keys, keys[..i], key, host, buckets);
      buckets := buckets[host := buckets[host] + buckets[key]] - {key};
      i := i + 1;
    }
    assert keys[..i] == keys;
  }

  // ---- the surviving buckets are the groups ----

  /** In one identity, what ended up under a surviving key is the group of any
  finding originally filed there. */
  lemma SurvivorIsGroup(s: seq<Finding>, keys: seq<MergeKey>, k: MergeKey, f: Finding, bucket: seq<AttributedFinding>)
    requires OneIdentity(s) && KeysOf(s, keys)
    requires Alive(keys, keys, k) && f in s && KeyOf(f) == k
    requires HoldsFolded(s, keys, keys, k, bucket)
    ensures IsGroup(s, f, FindingsOf(bucket))
  {
    hide Alive, Goes, Mates;
    forall x ensures multiset(FindingsOf(bucket))[x] == if Mates(s, f, x) then multiset(s)[x] else 0 {
      if x in s {
        GoesIsMates(s, keys, k, f, x);
      }
      assert x in s <==> x in multiset(s);
    }
  }

  lemma GoesIsMates(s: seq<Finding>, keys: seq<MergeKey>, k: MergeKey, f: Finding, x: Finding)
    requires OneIdentity(s) && KeysOf(s, keys)
    requires Alive(keys, keys, k) && f in s && KeyOf(f) == k && x in s
    ensures Goes(keys, keys, KeyOf(x), k) <==> Mates(s, f, x)
  {
    hide Undivided, SoleHost, KeysOf;
    assert KeyOf(x) in keys && k in keys by { KeysListed(s, keys, f); KeysListed(s, keys, x); }
    assert ClaimOf(f) == ClaimOf(x) <==> k.SameClaimAs(KeyOf(x));
    if k.SameClaimAs(KeyOf(x)) && KeyOf(x) != k {
      if k.discriminator == "" {
        // A surviving silent key has no sole host, but x asks a question.
        HostIffUndivided(s, keys, KeyOf(x), x, f);
        SoleHostIsLoud(keys, KeyOf(x), k);
      } else if KeyOf(x).discriminator == "" {
        HostIffUndivided(s, keys, k, f, x);
      } else {
        TwoQuestionsDivide(s, f, x);
        SoleHostIsLoud(keys, KeyOf(x), k);
      }
    } else {
      SoleHostIsLoud(keys, KeyOf(x), k);
    }
  }

  lemma KeysListed(s: seq<Finding>, keys: seq<MergeKey>, f: Finding)
    requires KeysOf(s, keys) && f in s
    ensures KeyOf(f) in keys
  {
  }

  lemma SoleHostIsLoud(keys: seq<MergeKey>, key: MergeKey, host: MergeKey)
    ensures SoleHost(keys, key, host) ==> host.discriminator != "" && host.SameClaimAs(key)
  {
  }

  lemma TwoQuestionsDivide(s: seq<Finding>, f: Finding, g: Finding)
    requires f in s && g in s && ClaimOf(f) == ClaimOf(g)
    requires f.discriminator != "" && g.discriminator != "" && f.discriminator != g.discriminator
    ensures !Undivided(s, ClaimOf(f))
  {
    assert Asked(s, ClaimOf(f), f.discriminator) && Asked(s, ClaimOf(f), g.discriminator);
  }

  /** A question is the silent key's sole host exactly when it is the only question. */
  lemma HostIffUndivided(s: seq<Finding>, keys: seq<MergeKey>, loud: MergeKey, asker: Finding, silent: Finding)
    requires OneIdentity(s) && KeysOf(s, keys)
    requires asker in s && silent in s && KeyOf(asker) == loud && ClaimOf(asker) == ClaimOf(silent)
    requires loud.discriminator != "" && silent.discriminator == ""
    ensures SoleHost(keys, KeyOf(silent), loud) <==> Undivided(s, ClaimOf(asker))
  {
    var claim := ClaimOf(asker);
    assert Asked(s, claim, asker.discriminator);
    if Undivided(s, claim) {
      forall other | other in keys && Hosts(other, KeyOf(silent)) ensures other == loud {
        var g :| g in s && KeyOf(g) == other;
        assert IdentityOf(g) == IdentityOf(asker);
        assert Asked(s, claim, g.discriminator);
      }
    }
    if SoleHost(keys, KeyOf(silent), loud) {
      forall p | Asked(s, claim, p) ensures p == asker.discriminator {
        var g :| g in s && ClaimOf(g) == claim && g.discriminator == p;
        assert KeyOf(g) in keys && Hosts(KeyOf(g), KeyOf(silent));
      }
    }
  }

  // ---- the partition ----

  ghost predicate IsPart(s: seq<Finding>, k: MergeKey, part: seq<AttributedFinding>) {
    exists f :: f in s && KeyOf(f) == k && IsGroup(s, f, FindingsOf(part))
  }

  /** parts are the groups of s, in key order, and no two of them are mates. */
  ghost predicate IsPartition(s: seq<Finding>, keys: seq<MergeKey>, parts: seq<seq<AttributedFinding>>) {
    && |parts| == |keys|
    && StrictlySorted(keys, CompareKey)
    && (forall i :: 0 <= i < |keys| ==> IsPart(s, keys[i], parts[i]))
    && (forall f :: f in s ==> Housed(s, keys, f))
    && (forall f, g :: f in s && g in s ==> Apart(s, keys, f, g))
  }

  /** f is a mate of some finding filed under one of the keys. */
  ghost predicate Housed(s: seq<Finding>, keys: seq<MergeKey>, f: Finding) {
    exists g :: g in s && KeyOf(g) in keys && Mates(s, g, f)
  }

  /** Findings filed under two different keys are not mates. */
  ghost predicate Apart(s: seq<Finding>, keys: seq<MergeKey>, f: Finding, g: Finding) {
    KeyOf(f) in keys && KeyOf(g) in keys && KeyOf(f) != KeyOf(g) ==> !Mates(s, f, g)
  }

  lemma EveryoneIsHoused(s: seq<Finding>, keys: seq<MergeKey>, f: Finding) returns (k: MergeKey, g: Finding)
    requires OneIdentity(s) && KeysOf(s, keys) && f in s
    ensures Alive(keys, keys, k) && g in s && KeyOf(g) == k && Mates(s, g, f)
  {
    hide SoleHost, Undivided;
    if Folds(keys, KeyOf(f)) {
      k :| SoleHost(keys, KeyOf(f), k);
      HostIsLoud(keys, KeyOf(f), k);
      g :| g in s && KeyOf(g) == k;
      GoesIsMates(s, keys, k, g, f);
      KeysListed(s, keys, f);
    } else {
      k, g := KeyOf(f), f;
    }
  }

  lemma SurvivorsAreApart(s: seq<Finding>, keys: seq<MergeKey>, f: Finding, g: Finding)
    requires OneIdentity(s) && KeysOf(s, keys) && f in s && g in s
    requires Alive(keys, keys, KeyOf(f)) && Alive(keys, keys, KeyOf(g)) && KeyOf(f) != KeyOf(g)
    ensures !Mates(s, f, g)
  {
    hide SoleHost, Mates, KeysOf;
    GoesIsMates(s, keys, KeyOf(f), f, g);
  }

  method PartitionByCompatibility(group: seq<AttributedFinding>) returns (parts: seq<seq<AttributedFinding>>)
    requires group != [] && OneIdentity(FindingsOf(group))
    ensures exists keys :: IsPartition(FindingsOf(group), keys, parts)
  {
    hide IsPartition, KeysOf, KeysBy, Filed, FoldedSoFar, HoldsFolded, Holds, Mates, IsPart, Alive, CompareKey;
    ghost var s := FindingsOf(group);
    if |group| == 1 {
      LonePartition(group);
      return [group];
    }
    var filled, keys := FillBuckets(group);
    DistinctKeys(s, keys);
    var buckets := FoldSilent(s, keys, filled);
    var remaining: seq<MergeKey> := [];
    var i := 0;
    while i < |keys|
      invariant 0 <= i <= |keys|
      invariant Distinct(remaining)
      invariant forall k :: k in remaining <==> k in keys[..i] && k in buckets
    {
      assert keys[..i + 1] == keys[..i] + [keys[i]];
      assert keys[i] !in keys[..i];
      if keys[i] in buckets {
        remaining := remaining + [keys[i]];
      }
      i := i + 1;
    }
    assert keys[..i] == keys;
    KeyOrder();
    TiesOfKeys(remaining);
    remaining := SortDistinctFunc(remaining, CompareKey);
    SurvivorsRemain(s, keys, buckets, remaining);
    parts := [];
    i := 0;
    while i < |remaining|
      invariant 0 <= i <= |remaining| && |parts| == i
      invariant forall j :: 0 <= j < i ==> parts[j] == buckets[remaining[j]]
    {
      parts := parts + [buckets[remaining[i]]];
      i := i + 1;
    }
    SurvivorsPartition(s, keys, buckets, remaining, parts);
  }

  lemma DistinctKeys(s: seq<Finding>, keys: seq<MergeKey>)
    requires KeysOf(s, keys)
    ensures Distinct(keys)
  {
  }

  lemma TiesOfKeys(keys: seq<MergeKey>)
    ensures TiesAreEqual(keys, CompareKey)
  {
    KeyOrder();
  }

  lemma SurvivorsRemain(s: seq<Finding>, keys: seq<MergeKey>, buckets: Buckets, remaining: seq<MergeKey>)
    requires FoldedSoFar(s, keys, keys, buckets)
    requires forall k :: k in remaining <==> k in keys && k in buckets
    ensures forall k :: k in remaining <==> Alive(keys, keys, k)
    ensures forall k :: k in remaining ==> k in buckets
  {
    hide HoldsFolded, Folds;
  }

  lemma LonePartition(group: seq<AttributedFinding>)
    requires |group| == 1
    ensures IsPartition(FindingsOf(group), [KeyOf(group[0].finding)], [group])
  {
    hide Undivided, Asked;
    var s, f := FindingsOf(group), group[0].finding;
    assert s == [f] && multiset(s) == multiset{f};
    assert IsGroup(s, f, s);
    assert IsPart(s, KeyOf(f), group);
    assert Housed(s, [KeyOf(f)], f);
  }

  lemma SurvivorsPartition(
    s: seq<Finding>, keys: seq<MergeKey>, buckets: Buckets, remaining: seq<MergeKey>,
    parts: seq<seq<AttributedFinding>>)
    requires OneIdentity(s) && KeysOf(s, keys) && FoldedSoFar(s, keys, keys, buckets)
    requires StrictlySorted(remaining, CompareKey) && |parts| == |remaining|
    requires forall k :: k in remaining <==> Alive(keys, keys, k)
    requires forall k :: k in remaining ==> k in buckets
    requires forall j :: 0 <= j < |parts| ==> parts[j] == buckets[remaining[j]]
    ensures IsPartition(s, remaining, parts)
  {
    hide Alive, HoldsFolded, Mates, CompareKey, OneIdentity, KeysOf, IsPart;
    forall i | 0 <= i < |remaining| ensures IsPart(s, remaining[i], parts[i]) {
      assert remaining[i] in remaining;
      SurvivorIsPart(s, keys, remaining[i], parts[i]);
    }
    forall f | f in s ensures Housed(s, remaining, f) {
      var k, g := EveryoneIsHoused(s, keys, f);
    }
    forall f, g | f in s && g in s ensures Apart(s, remaining, f, g) {
      if KeyOf(f) in remaining && KeyOf(g) in remaining && KeyOf(f) != KeyOf(g) {
        SurvivorsAreApart(s, keys, f, g);
      }
    }
  }

  lemma SurvivorIsPart(s: seq<Finding>, keys: seq<MergeKey>, k: MergeKey, part: seq<AttributedFinding>)
    requires OneIdentity(s) && KeysOf(s, keys) && Alive(keys, keys, k)
    requires HoldsFolded(s, keys, keys, k, part)
    ensures IsPart(s, k, part)
  {
    hide HoldsFolded, OneIdentity, IsGroup;
    AliveIsKey(keys, k);
    var f :| f in s && KeyOf(f) == k;
    SurvivorIsGroup(s, keys, k, f, part);
  }

  lemma AliveIsKey(keys: seq<MergeKey>, k: MergeKey)
    requires Alive(keys, keys, k)
    ensures k in keys
  {
  }
}
