/** End of a batch upload: the source messages are partitioned by album, then by type and chunk, and copied with
    fallbacks; the ids of the copies and the metadata of their sources are collected side by side. */
module BatchCopy {

  const CHUNK := 10

  datatype Meta = Meta(kind: string, fileId: string)

  /** album is "" for a message outside any media group. */
  datatype Source = Source(chat: int, message: int, album: string, fileType: string, meta: Meta)

  datatype Message = Message(chat: int, id: int)

  function Original(s: Source): Message {
    Message(s.chat, s.message)
  }

  /** A message the API reports as created, and the message it is a copy of. */
  datatype Copy = Copy(id: int, original: Message)

  datatype Response = Raises | Returns(copies: seq<Copy>)

  /** _build_input_media: whether a media group can carry the file. */
  predicate Supported(m: Meta) {
    m.fileId != "" && m.kind in {"photo", "video", "audio", "document"}
  }

  lemma SupportedKinds(m: Meta)
    ensures Supported(m) <==>
      m.fileId != "" && (m.kind == "photo" || m.kind == "video" || m.kind == "audio" || m.kind == "document")
  {
  }

  // ---- grouping ----

  /** How often i is listed. */
  function Count(all: seq<nat>, i: nat): nat {
    multiset(all)[i]
  }

  lemma CountSnoc(all: seq<nat>, x: nat, i: nat)
    ensures Count(all + [x], i) == Count(all, i) + if x == i then 1 else 0
  {
  }

  lemma CountNext(all: seq<nat>, j: nat, i: nat)
    requires j < |all|
    ensures Count(all[..j + 1], i) == Count(all[..j], i) + if all[j] == i then 1 else 0
  {
    assert all[..j + 1] == all[..j] + [all[j]];
  }

  lemma CountConcat(a: seq<nat>, b: seq<nat>, i: nat)
    ensures Count(a + b, i) == Count(a, i) + Count(b, i)
  {
  }

  lemma CountWithin(all: seq<nat>, n: nat, i: nat)
    requires n <= |all|
    ensures Count(all[..n], i) <= Count(all, i)
  {
    assert all == all[..n] + all[n..];
  }

  lemma CountIn(all: seq<nat>, i: nat)
    ensures i in all <==> Count(all, i) > 0
  {
    assert i in all <==> i in multiset(all);
  }

  function Range(n: nat): (r: seq<nat>)
    ensures |r| == n
  {
    seq(n, i => i)
  }

  lemma {:induction false} RangeIsOnce(n: nat, i: nat)
    ensures Count(Range(n), i) == if i < n then 1 else 0
  {
    if n > 0 {
      RangeIsOnce(n - 1, i);
      assert Range(n) == Range(n - 1) + [n - 1];
    }
  }

  lemma RangeMembers(n: nat)
    ensures (forall j: nat :: j in Range(n) <==> j < n) && forall k :: 0 <= k < n ==> Range(n)[k] == k
  {
    forall j: nat ensures j in Range(n) <==> j < n {
      CountIn(Range(n), j);
      RangeIsOnce(n, j);
    }
  }

  predicate InRange(all: seq<nat>, n: nat) {
    forall j :: 0 <= j < |all| ==> all[j] < n
  }

  /** How often i is listed in the first g groups. */
  function Occurs(groups: seq<seq<nat>>, g: nat, i: nat): nat
    requires g <= |groups|
  {
    if g == 0 then 0 else Occurs(groups, g - 1, i) + Count(groups[g - 1], i)
  }

  /** The groups hold the elements of all, each as often as it occurs there. */
  ghost predicate Partitions(groups: seq<seq<nat>>, all: seq<nat>) {
    forall i: nat :: Occurs(groups, |groups|, i) == Count(all, i)
  }

  lemma {:induction false} OccursExtend(groups: seq<seq<nat>>, n: nat, g: nat, x: nat, i: nat)
    requires g < |groups| && n <= |groups|
    ensures Occurs(groups[g := groups[g] + [x]], n, i) == Occurs(groups, n, i) + if g < n && x == i then 1 else 0
  {
    if n > 0 {
      OccursExtend(groups, n - 1, g, x, i);
      CountSnoc(groups[g], x, i);
    }
  }

  lemma {:induction false} OccursPrefix(groups: seq<seq<nat>>, last: seq<nat>, n: nat, i: nat)
    requires n <= |groups|
    ensures Occurs(groups + [last], n, i) == Occurs(groups, n, i)
  {
    if n > 0 {
      OccursPrefix(groups, last, n - 1, i);
    }
  }

  lemma {:induction false} OccursNowhere(groups: seq<seq<nat>>, n: nat, i: nat)
    requires n <= |groups| && forall g :: 0 <= g < n ==> i !in groups[g]
    ensures Occurs(groups, n, i) == 0
  {
    if n > 0 {
      OccursNowhere(groups, n - 1, i);
      CountIn(groups[n - 1], i);
    }
  }

  lemma {:induction false} OccursOnlyIn(groups: seq<seq<nat>>, n: nat, g: nat, i: nat)
    requires g < n <= |groups| && forall h :: 0 <= h < n && h != g ==> i !in groups[h]
    ensures Occurs(groups, n, i) == Count(groups[g], i)
  {
    if g == n - 1 {
      OccursNowhere(groups, g, i);
    } else {
      OccursOnlyIn(groups, n - 1, g, i);
      CountIn(groups[n - 1], i);
    }
  }

  /** Every group holds indices of one key, its label. */
  ghost predicate Labelled(keys: seq<string>, labels: seq<string>, groups: seq<seq<nat>>) {
    && |labels| == |groups|
    && forall g :: 0 <= g < |groups| ==> groups[g] != [] && HaveKey(keys, groups[g], labels[g])
  }

  ghost predicate HaveKey(keys: seq<string>, group: seq<nat>, key: string) {
    forall j :: 0 <= j < |group| ==> group[j] < |keys| && keys[group[j]] == key
  }

  ghost predicate Distinct(labels: seq<string>) {
    forall g, h :: 0 <= g < h < |labels| ==> labels[g] != labels[h]
  }

  /** dict.setdefault(key, []).append(i) over a list: the groups, in the order their keys were first seen. */
  method GroupBy(keys: seq<string>, all: seq<nat>) returns (labels: seq<string>, groups: seq<seq<nat>>)
    requires InRange(all, |keys|)
    ensures Partitions(groups, all) && Labelled(keys, labels, groups) && Distinct(labels)
  {
    labels, groups := [], [];
    for j := 0 to |all|
      invariant Partitions(groups, all[..j]) && Labelled(keys, labels, groups) && Distinct(labels)
    {
      var g := Find(labels, keys[all[j]]);
      if g < |labels| {
        PartitionsExtend(groups, all, j, g);
        LabelledExtend(keys, labels, groups, g, all[j]);
        groups := groups[g := groups[g] + [all[j]]];
      } else {
        PartitionsNew(groups, all, j);
        labels, groups := labels + [keys[all[j]]], groups + [[all[j]]];
      }
    }
    assert all[..|all|] == all;
  }

  lemma PartitionsExtend(groups: seq<seq<nat>>, all: seq<nat>, j: nat, g: nat)
    requires j < |all| && Partitions(groups, all[..j]) && g < |groups|
    ensures Partitions(groups[g := groups[g] + [all[j]]], all[..j + 1])
  {
    var longer := groups[g := groups[g] + [all[j]]];
    forall i: nat ensures Occurs(longer, |groups|, i) == Count(all[..j + 1], i) {
      CountNext(all, j, i);
      OccursExtend(groups, |groups|, g, all[j], i);
    }
  }

  lemma PartitionsNew(groups: seq<seq<nat>>, all: seq<nat>, j: nat)
    requires j < |all| && Partitions(groups, all[..j])
    ensures Partitions(groups + [[all[j]]], all[..j + 1])
  {
    var longer := groups + [[all[j]]];
    forall i: nat ensures Occurs(longer, |longer|, i) == Count(all[..j + 1], i) {
      CountNext(all, j, i);
      OccursPrefix(groups, [all[j]], |groups|, i);
    }
  }

  lemma LabelledExtend(keys: seq<string>, labels: seq<string>, groups: seq<seq<nat>>, g: nat, x: nat)
    requires Labelled(keys, labels, groups) && g < |groups| && x < |keys| && keys[x] == labels[g]
    ensures Labelled(keys, labels, groups[g := groups[g] + [x]])
  {
    var longer := groups[g := groups[g] + [x]];
    forall h | 0 <= h < |longer| ensures longer[h] != [] && HaveKey(keys, longer[h], labels[h]) {
      assert HaveKey(keys, groups[h], labels[h]);
    }
  }

  function Find(labels: seq<string>, key: string): (g: nat)
    ensures g <= |labels| && (g < |labels| ==> labels[g] == key)
    ensures forall h :: 0 <= h < g ==> labels[h] != key
  {
    if labels == [] || labels[0] == key then 0 else 1 + Find(labels[1..], key)
  }

  /** A group holds exactly the indices of its key, as often as they were listed. */
  lemma GroupIsWhole(keys: seq<string>, all: seq<nat>, labels: seq<string>, groups: seq<seq<nat>>, g: nat, i: nat)
    requires Partitions(groups, all) && Labelled(keys, labels, groups) && Distinct(labels) && g < |groups|
    ensures Count(groups[g], i) == if i < |keys| && keys[i] == labels[g] then Count(all, i) else 0
  {
    assert HaveKey(keys, groups[g], labels[g]);
    CountIn(groups[g], i);
    if i < |keys| && keys[i] == labels[g] {
      forall h | 0 <= h < |groups| && h != g ensures i !in groups[h] {
        assert HaveKey(keys, groups[h], labels[h]);
      }
      OccursOnlyIn(groups, |groups|, g, i);
    }
  }

  /** [x for x in all if flags[x] == flag] */
  function Select(flags: seq<bool>, all: seq<nat>, flag: bool): seq<nat>
    requires InRange(all, |flags|)
  {
    if all == [] then []
    else Select(flags, all[..|all| - 1], flag) + if flags[all[|all| - 1]] == flag then [all[|all| - 1]] else []
  }

  lemma {:induction false} SelectCount(flags: seq<bool>, all: seq<nat>, flag: bool, i: nat)
    requires InRange(all, |flags|)
    ensures Count(Select(flags, all, flag), i) == if i < |flags| && flags[i] == flag then Count(all, i) else 0
  {
    if all != [] {
      var front, x := all[..|all| - 1], all[|all| - 1];
      SelectCount(flags, front, flag, i);
      assert all == front + [x];
    }
  }

  method Separate(flags: seq<bool>, all: seq<nat>) returns (yes: seq<nat>, no: seq<nat>)
    requires InRange(all, |flags|)
    ensures yes == Select(flags, all, true) && no == Select(flags, all, false)
  {
    yes, no := [], [];
    for i := 0 to |all|
      invariant yes == Select(flags, all[..i], true) && no == Select(flags, all[..i], false)
    {
      assert all[..i + 1][..i] == all[..i];
      if flags[all[i]] {
        yes := yes + [all[i]];
      } else {
        no := no + [all[i]];
      }
    }
    assert all[..|all|] == all;
  }

  // ---- the calls made ----

  datatype Kind = CopyMessages | SendMediaGroup | CopyMessage

  /** The outcome of each API call, by its number and the sources it asks for. */
  type Api = (nat, seq<nat>) -> Response

  /** One API call: the sources it asks for, and what came back. */
  datatype Exchange = Exchange(kind: Kind, group: seq<nat>, response: Response)

  function Copies(e: Exchange): seq<Copy> {
    if e.response.Returns? then e.response.copies else []
  }

  /** How far zip(sources, copies) gets. */
  function Zipped(e: Exchange): (n: nat)
    ensures n <= |e.group| && n <= |Copies(e)|
  {
    if |e.group| <= |Copies(e)| then |e.group| else |Copies(e)|
  }

  /** What the first n calls leave in the two lists. */
  function CollectedIds(log: seq<Exchange>, n: nat): seq<Copy>
    requires n <= |log|
  {
    if n == 0 then [] else CollectedIds(log, n - 1) + Copies(log[n - 1])[..Zipped(log[n - 1])]
  }

  function CollectedSources(log: seq<Exchange>, n: nat): seq<nat>
    requires n <= |log|
  {
    if n == 0 then [] else CollectedSources(log, n - 1) + log[n - 1].group[..Zipped(log[n - 1])]
  }

  predicate FromAlbum(sources: seq<Source>, group: seq<nat>) {
    group != [] && group[0] < |sources| && sources[group[0]].album != ""
  }

  /** The outcome decides what becomes of the sources asked for: no other call follows for them. Only an album or a media
      group that raised has a fallback. */
  predicate Final(sources: seq<Source>, e: Exchange) {
    e.response.Returns? || e.kind == CopyMessage || (e.kind == CopyMessages && !FromAlbum(sources, e.group))
  }

  predicate InFull(r: Response, group: seq<nat>) {
    group == [] || (r.Returns? && |group| <= |r.copies|)
  }

  /** How often the first n calls asked for source i in a final call. */
  function Settled(sources: seq<Source>, log: seq<Exchange>, n: nat, i: nat): nat
    requires n <= |log|
  {
    if n == 0 then 0
    else Settled(sources, log, n - 1, i) + if Final(sources, log[n - 1]) then Count(log[n - 1].group, i) else 0
  }

  lemma {:induction false} CollectedPrefix(log: seq<Exchange>, longer: seq<Exchange>, n: nat)
    requires n <= |log| && log <= longer
    ensures CollectedIds(longer, n) == CollectedIds(log, n) && CollectedSources(longer, n) == CollectedSources(log, n)
  {
    if n > 0 {
      CollectedPrefix(log, longer, n - 1);
    }
  }

  lemma {:induction false} SettledConcat(sources: seq<Source>, a: seq<Exchange>, b: seq<Exchange>, n: nat, i: nat)
    requires n <= |b|
    ensures Settled(sources, a + b, |a| + n, i) == Settled(sources, a, |a|, i) + Settled(sources, b, n, i)
  {
    if n == 0 {
      SettledPrefix(sources, a, a + b, |a|, i);
    } else {
      SettledConcat(sources, a, b, n - 1, i);
    }
  }

  lemma {:induction false} SettledPrefix(sources: seq<Source>, log: seq<Exchange>, longer: seq<Exchange>, n: nat, i: nat)
    requires n <= |log| && log <= longer
    ensures Settled(sources, longer, n, i) == Settled(sources, log, n, i)
  {
    if n > 0 {
      SettledPrefix(sources, log, longer, n - 1, i);
    }
  }

  /** How often the first n calls collected source i. */
  function Taken(log: seq<Exchange>, n: nat, i: nat): nat
    requires n <= |log|
  {
    if n == 0 then 0 else Taken(log, n - 1, i) + Count(log[n - 1].group[..Zipped(log[n - 1])], i)
  }

  lemma {:induction false} CollectedCount(log: seq<Exchange>, n: nat, i: nat)
    requires n <= |log|
    ensures Count(CollectedSources(log, n), i) == Taken(log, n, i)
  {
    if n > 0 {
      CollectedCount(log, n - 1, i);
      CountConcat(CollectedSources(log, n - 1), log[n - 1].group[..Zipped(log[n - 1])], i);
    }
  }

  /** Only the sources of final calls are collected. */
  lemma {:induction false} CollectedOfFinal(sources: seq<Source>, log: seq<Exchange>, n: nat, i: nat)
    requires n <= |log|
    ensures Taken(log, n, i) <= Settled(sources, log, n, i)
  {
    if n > 0 {
      CollectedOfFinal(sources, log, n - 1, i);
      TakenCount(log[n - 1], i);
    }
  }

  lemma {:induction false} AllOfFinal(sources: seq<Source>, log: seq<Exchange>, n: nat, i: nat)
    requires n <= |log| && forall k :: 0 <= k < n && Final(sources, log[k]) ==> InFull(log[k].response, log[k].group)
    ensures Taken(log, n, i) == Settled(sources, log, n, i)
  {
    if n > 0 {
      AllOfFinal(sources, log, n - 1, i);
      TakenCount(log[n - 1], i);
    }
  }

  lemma TakenCount(e: Exchange, i: nat)
    ensures Count(e.group[..Zipped(e)], i) <= if e.response.Returns? then Count(e.group, i) else 0
    ensures InFull(e.response, e.group) ==> Count(e.group[..Zipped(e)], i) == Count(e.group, i)
  {
    CountConcat(e.group[..Zipped(e)], e.group[Zipped(e)..], i);
    assert e.group == e.group[..Zipped(e)] + e.group[Zipped(e)..];
  }

  lemma LeftOut(group: seq<nat>, n: nat)
    requires n < |group|
    ensures Count(group[..n], group[n]) < Count(group, group[n])
  {
    CountNext(group, n, group[n]);
    CountWithin(group, n + 1, group[n]);
  }

  /** The first source a short final call leaves out is collected less often than settled. */
  lemma {:induction false} ShortLeavesOut(sources: seq<Source>, log: seq<Exchange>, n: nat, k: nat)
    requires k < n <= |log| && Final(sources, log[k]) && !InFull(log[k].response, log[k].group)
    ensures var i := log[k].group[Zipped(log[k])];
      Taken(log, n, i) < Settled(sources, log, n, i)
  {
    var i := log[k].group[Zipped(log[k])];
    if k == n - 1 {
      CollectedOfFinal(sources, log, n - 1, i);
      LeftOut(log[k].group, Zipped(log[k]));
    } else {
      TakenCount(log[n - 1], i);
      ShortLeavesOut(sources, log, n - 1, k);
    }
  }

  // ---- alignment ----

  /** Every collected id stands beside the metadata of the message it is a copy of. */
  ghost predicate Aligned(sources: seq<Source>, ids: seq<Copy>, metas: seq<nat>) {
    && |ids| == |metas|
    && forall k :: 0 <= k < |ids| ==> metas[k] < |sources| && ids[k].original == Original(sources[metas[k]])
  }

  /** The message a call names for each source: copy_messages takes one chat, that of its first source. */
  function Names(sources: seq<Source>, e: Exchange): (names: seq<Message>)
    requires forall j :: 0 <= j < |e.group| ==> e.group[j] < |sources|
    ensures |names| == |e.group|
  {
    seq(|e.group|, j requires 0 <= j < |e.group| =>
      Message(sources[e.group[if e.kind == CopyMessages then 0 else j]].chat, sources[e.group[j]].message))
  }

  ghost predicate Increasing(picks: seq<nat>, n: nat) {
    && (forall k :: 0 <= k < |picks| ==> picks[k] < n)
    && forall k, m :: 0 <= k < m < |picks| ==> picks[k] < picks[m]
  }

  ghost predicate Picked(names: seq<Message>, copies: seq<Copy>, picks: seq<nat>) {
    && |picks| == |copies| && Increasing(picks, |names|)
    && forall k :: 0 <= k < |copies| ==> copies[k].original == names[picks[k]]
  }

  /** What the API promises: copies of some of the named messages, in the order they were named. */
  ghost predicate Reports(names: seq<Message>, copies: seq<Copy>) {
    exists picks :: Picked(names, copies, picks)
  }

  ghost predicate Reported(copies: seq<Copy>, m: Message) {
    exists k :: 0 <= k < |copies| && copies[k].original == m
  }

  ghost predicate NoRepeats(names: seq<Message>) {
    forall i, j :: 0 <= i < j < |names| ==> names[i] != names[j]
  }

  /** No named message was skipped before a reported one. */
  ghost predicate NoneSkipped(names: seq<Message>, copies: seq<Copy>) {
    forall i, j :: 0 <= i < j < |names| && Reported(copies, names[j]) ==> Reported(copies, names[i])
  }

  /** What was reported for a source was looked for in the chat of that source. */
  ghost predicate InItsChat(sources: seq<Source>, e: Exchange)
    requires forall j :: 0 <= j < |e.group| ==> e.group[j] < |sources|
  {
    forall j :: 0 <= j < |e.group| && Reported(Copies(e), Names(sources, e)[j]) ==>
      Names(sources, e)[j].chat == sources[e.group[j]].chat
  }

  /** A call of existing sources that kept the promise of the API. */
  ghost predicate Kept(sources: seq<Source>, e: Exchange) {
    (forall j :: 0 <= j < |e.group| ==> e.group[j] < |sources|) && Reports(Names(sources, e), Copies(e))
  }

  /** Increasing places stay at or above their index, and a full set of them is every place in order. */
  lemma {:induction false} PicksAbove(picks: seq<nat>, n: nat, k: nat)
    requires Increasing(picks, n) && k < |picks|
    ensures k <= picks[k] <= n - (|picks| - k)
    decreases |picks| - k
  {
    PicksFrom(picks, n, k);
    if k + 1 < |picks| {
      PicksAbove(picks, n, k + 1);
    }
  }

  lemma {:induction false} PicksFrom(picks: seq<nat>, n: nat, k: nat)
    requires Increasing(picks, n) && k < |picks|
    ensures k <= picks[k]
  {
    if k > 0 {
      PicksFrom(picks, n, k - 1);
    }
  }

  /** No place is left out before one that is picked. */
  ghost predicate Unskipped(picks: seq<nat>, n: nat) {
    forall i, j :: 0 <= i < j < n && j in picks ==> i in picks
  }

  /** Without a place left out the k-th pick is place k. */
  lemma {:induction false} PicksInPlace(picks: seq<nat>, n: nat, k: nat)
    requires Increasing(picks, n) && Unskipped(picks, n) && k < |picks|
    ensures picks[k] == k
  {
    PicksFrom(picks, n, k);
    if picks[k] != k {
      assert picks[k] in picks && k in picks;
      var m :| 0 <= m < |picks| && picks[m] == k;
      if m < k {
        PicksInPlace(picks, n, m);
      }
      assert false;
    }
  }

  ghost predicate PartAligned(sources: seq<Source>, e: Exchange) {
    Aligned(sources, Copies(e)[..Zipped(e)], e.group[..Zipped(e)])
  }

  /** A reading of the response in which nothing was skipped before a reported message, and every reported message was looked
      for in the chat of its source. */
  ghost predicate ReadsInPlace(sources: seq<Source>, e: Exchange, picks: seq<nat>)
    requires forall j :: 0 <= j < |e.group| ==> e.group[j] < |sources|
  {
    && Picked(Names(sources, e), Copies(e), picks) && Unskipped(picks, |e.group|)
    && forall j :: 0 <= j < |e.group| && j in picks ==> Names(sources, e)[j].chat == sources[e.group[j]].chat
  }

  /** The response can be read so. */
  ghost predicate InPlace(sources: seq<Source>, e: Exchange) {
    (forall j :: 0 <= j < |e.group| ==> e.group[j] < |sources|) && exists picks :: ReadsInPlace(sources, e, picks)
  }

  /** One response is aligned exactly when it is in place. */
  lemma ExchangeAlignedIff(sources: seq<Source>, e: Exchange)
    requires Kept(sources, e)
    ensures PartAligned(sources, e) <==> InPlace(sources, e)
  {
    KeptIsShort(sources, e);
    if InPlace(sources, e) {
      var picks :| ReadsInPlace(sources, e, picks);
      InPlaceAligned(sources, e, picks);
    }
    if PartAligned(sources, e) {
      AlignedInPlace(sources, e);
    }
  }

  lemma KeptIsShort(sources: seq<Source>, e: Exchange)
    requires Kept(sources, e)
    ensures Zipped(e) == |Copies(e)|
  {
    var picks :| Picked(Names(sources, e), Copies(e), picks);
    if Copies(e) != [] {
      PicksAbove(picks, |e.group|, 0);
    }
  }

  lemma InPlaceAligned(sources: seq<Source>, e: Exchange, picks: seq<nat>)
    requires Kept(sources, e) && Zipped(e) == |Copies(e)| && ReadsInPlace(sources, e, picks)
    ensures PartAligned(sources, e)
  {
    forall k | 0 <= k < |Copies(e)| ensures Copies(e)[k].original == Original(sources[e.group[k]]) {
      PicksInPlace(picks, |e.group|, k);
      assert picks[k] in picks;
    }
  }

  lemma AlignedInPlace(sources: seq<Source>, e: Exchange)
    requires Kept(sources, e) && Zipped(e) == |Copies(e)| && PartAligned(sources, e)
    ensures InPlace(sources, e)
  {
    var names, copies, picks := Names(sources, e), Copies(e), Range(|Copies(e)|);
    var named :| Picked(names, copies, named);
    forall k | 0 <= k < |copies| ensures copies[k].original == names[k] && names[k].chat == sources[e.group[k]].chat {
      assert copies[..Zipped(e)][k] == copies[k] && e.group[..Zipped(e)][k] == e.group[k];
      assert copies[k].original == names[named[k]];
    }
    RangeMembers(|copies|);
    assert Picked(names, copies, picks);
    assert ReadsInPlace(sources, e, picks);
  }

  /** When no call names a message twice there is one reading: a response is in place exactly when every message named before a
      reported one is reported, and was looked for in the chat of its source. */
  lemma InPlaceIffNoneSkipped(sources: seq<Source>, e: Exchange)
    requires Kept(sources, e) && NoRepeats(Names(sources, e))
    ensures InPlace(sources, e) <==> NoneSkipped(Names(sources, e), Copies(e)) && InItsChat(sources, e)
  {
    var names, copies := Names(sources, e), Copies(e);
    forall picks | Picked(names, copies, picks)
      ensures forall j :: 0 <= j < |names| ==> (j in picks <==> Reported(copies, names[j]))
    {
      ReportedIffPicked(names, copies, picks);
    }
    var picks :| Picked(names, copies, picks);
    if NoneSkipped(names, copies) && InItsChat(sources, e) {
      assert ReadsInPlace(sources, e, picks);
    }
  }

  lemma ReportedIffPicked(names: seq<Message>, copies: seq<Copy>, picks: seq<nat>)
    requires NoRepeats(names) && Picked(names, copies, picks)
    ensures forall j :: 0 <= j < |names| ==> (j in picks <==> Reported(copies, names[j]))
  {
    forall j | 0 <= j < |names| ensures j in picks <==> Reported(copies, names[j]) {
      if j in picks {
        var k :| 0 <= k < |picks| && picks[k] == j;
        assert copies[k].original == names[j];
      }
      if Reported(copies, names[j]) {
        var k :| 0 <= k < |copies| && copies[k].original == names[j];
        assert names[picks[k]] == names[j];
      }
    }
  }

  /** Ids and metadata are aligned exactly when no call skipped a message before a reported one, or reported a message
      looked for in another chat. */
  lemma AlignedIff(sources: seq<Source>, log: seq<Exchange>)
    requires forall k :: 0 <= k < |log| ==> Kept(sources, log[k])
    ensures Aligned(sources, CollectedIds(log, |log|), CollectedSources(log, |log|)) <==>
      forall k :: 0 <= k < |log| ==> InPlace(sources, log[k])
  {
    AlignedParts(sources, log, |log|);
    forall k | 0 <= k < |log| ensures PartAligned(sources, log[k]) <==> InPlace(sources, log[k]) {
      ExchangeAlignedIff(sources, log[k]);
    }
  }

  lemma {:induction false} AlignedParts(sources: seq<Source>, log: seq<Exchange>, n: nat)
    requires n <= |log|
    ensures Aligned(sources, CollectedIds(log, n), CollectedSources(log, n)) <==>
      forall k :: 0 <= k < n ==> PartAligned(sources, log[k])
  {
    if n > 0 {
      var e := log[n - 1];
      AlignedParts(sources, log, n - 1);
      SameLength(log, n - 1);
      AlignedConcat(sources, CollectedIds(log, n - 1), CollectedSources(log, n - 1),
        Copies(e)[..Zipped(e)], e.group[..Zipped(e)]);
    }
  }

  /** A response of full length skips nothing. */
  lemma FullSkipsNothing(names: seq<Message>, copies: seq<Copy>, picks: seq<nat>)
    requires Picked(names, copies, picks) && |names| <= |copies|
    ensures NoneSkipped(names, copies)
    ensures forall i :: 0 <= i < |names| ==> i in picks
  {
    FullReported(names, copies, picks);
    forall i | 0 <= i < |names| ensures i in picks {
      PicksAbove(picks, |names|, i);
      assert picks[i] == i;
    }
  }

  lemma FullInPlace(sources: seq<Source>, e: Exchange)
    requires Kept(sources, e) && InItsChat(sources, e) && (e.response.Returns? ==> InFull(e.response, e.group))
    ensures InPlace(sources, e)
  {
    var names, copies := Names(sources, e), Copies(e);
    var picks :| Picked(names, copies, picks);
    if e.response.Raises? || e.group == [] {
      assert ReadsInPlace(sources, e, picks);
    } else {
      FullSkipsNothing(names, copies, picks);
      FullReported(names, copies, picks);
      assert ReadsInPlace(sources, e, picks);
    }
  }

  lemma FullReported(names: seq<Message>, copies: seq<Copy>, picks: seq<nat>)
    requires Picked(names, copies, picks) && |names| <= |copies|
    ensures forall i :: 0 <= i < |names| ==> Reported(copies, names[i])
  {
    forall i | 0 <= i < |names| ensures Reported(copies, names[i]) {
      PicksAbove(picks, |names|, i);
      assert copies[i].original == names[i];
    }
  }

  /** Responses of full length, each from the chat of its sources, are aligned. */
  lemma FullLengthAligned(sources: seq<Source>, log: seq<Exchange>)
    requires forall k :: 0 <= k < |log| ==> Kept(sources, log[k]) && InItsChat(sources, log[k])
    requires forall k :: 0 <= k < |log| && log[k].response.Returns? ==> InFull(log[k].response, log[k].group)
    ensures Aligned(sources, CollectedIds(log, |log|), CollectedSources(log, |log|))
  {
    forall k | 0 <= k < |log| ensures InPlace(sources, log[k]) {
      FullInPlace(sources, log[k]);
    }
    AlignedIff(sources, log);
  }

  /** An album of three whose second message could not be copied: the id of the third ends beside the metadata of the second. */
  lemma SkippedMisaligns(a: Meta, b: Meta, c: Meta) returns (sources: seq<Source>, log: seq<Exchange>)
    requires b != c
    ensures |sources| == 3 && |log| == 1 && log[0].kind == CopyMessages && log[0].group == [0, 1, 2]
    ensures Kept(sources, log[0]) && InItsChat(sources, log[0])
    ensures |CollectedIds(log, 1)| == 2 && CollectedIds(log, 1)[1].original == Original(sources[2])
    ensures CollectedSources(log, 1) == [0, 1] && sources[1].meta != sources[2].meta
    ensures !Aligned(sources, CollectedIds(log, 1), CollectedSources(log, 1))
  {
    sources := [Source(7, 1, "g", "photo", a), Source(7, 2, "g", "photo", b), Source(7, 3, "g", "photo", c)];
    var copies := [Copy(101, Message(7, 1)), Copy(102, Message(7, 3))];
    var e := Exchange(CopyMessages, [0, 1, 2], Returns(copies));
    log := [e];
    assert Picked(Names(sources, e), copies, [0, 2]);
    assert CollectedIds(log, 0) == [] && CollectedSources(log, 0) == [];
    assert CollectedIds(log, 1) == copies && CollectedSources(log, 1) == [0, 1];
  }

  /** A chunk of two files from two chats whose media group raised: copy_messages looks for both in the first chat. */
  lemma OtherChatMisaligns(a: Meta, b: Meta) returns (sources: seq<Source>, e: Exchange)
    ensures e.kind == CopyMessages && e.group == [0, 1] && Kept(sources, e) && InFull(e.response, e.group)
    ensures NoneSkipped(Names(sources, e), Copies(e)) && !PartAligned(sources, e)
  {
    sources := [Source(7, 1, "", "photo", a), Source(8, 2, "", "photo", b)];
    var copies := [Copy(101, Message(7, 1)), Copy(102, Message(7, 2))];
    e := Exchange(CopyMessages, [0, 1], Returns(copies));
    var names := Names(sources, e);
    assert names == [Message(7, 1), Message(7, 2)];
    assert Picked(names, copies, [0, 1]);
    FullSkipsNothing(names, copies, [0, 1]);
    assert Copies(e)[..Zipped(e)][1] == Copy(102, Message(7, 2));
    assert e.group[..Zipped(e)][1] == 1;
  }

  lemma AlignedConcat(sources: seq<Source>, ids: seq<Copy>, metas: seq<nat>, ids': seq<Copy>, metas': seq<nat>)
    requires |ids| == |metas| && |ids'| == |metas'|
    ensures Aligned(sources, ids + ids', metas + metas') <==> Aligned(sources, ids, metas) && Aligned(sources, ids', metas')
  {
    if Aligned(sources, ids + ids', metas + metas') {
      forall k | 0 <= k < |ids| ensures metas[k] < |sources| && ids[k].original == Original(sources[metas[k]]) {
        assert (ids + ids')[k] == ids[k] && (metas + metas')[k] == metas[k];
      }
      forall k | 0 <= k < |ids'| ensures metas'[k] < |sources| && ids'[k].original == Original(sources[metas'[k]]) {
        assert (ids + ids')[|ids| + k] == ids'[k] && (metas + metas')[|ids| + k] == metas'[k];
      }
    }
  }

  lemma {:induction false} SameLength(log: seq<Exchange>, n: nat)
    requires n <= |log|
    ensures |CollectedIds(log, n)| == |CollectedSources(log, n)|
  {
    if n > 0 {
      SameLength(log, n - 1);
    }
  }

  // ---- which calls may be made ----

  /** A file that a media group can carry: supported and outside any album. */
  predicate Packable(s: Source) {
    s.album == "" && Supported(s.meta)
  }

  /** There is another such file of the same type to share a media group with. */
  ghost predicate HasPartner(sources: seq<Source>, i: nat)
    requires i < |sources|
  {
    exists j :: 0 <= j < |sources| && j != i && Packable(sources[j]) && sources[j].fileType == sources[i].fileType
  }

  /** The group is exactly the album of that name. */
  ghost predicate WholeAlbum(sources: seq<Source>, group: seq<nat>, name: string) {
    && group != [] && name != ""
    && forall i: nat :: Count(group, i) == if i < |sources| && sources[i].album == name then 1 else 0
  }

  /** The group is exactly the files of that type outside any album. */
  ghost predicate WholeType(sources: seq<Source>, group: seq<nat>, fileType: string) {
    forall i: nat ::
      Count(group, i) == if i < |sources| && sources[i].album == "" && sources[i].fileType == fileType then 1 else 0
  }

  /** Packable files of one type, each with a partner. */
  ghost predicate Packed(sources: seq<Source>, group: seq<nat>) {
    && (forall j :: 0 <= j < |group| ==> group[j] < |sources| && Packable(sources[group[j]]) && HasPartner(sources, group[j]))
    && forall j :: 0 <= j < |group| ==> sources[group[j]].fileType == sources[group[0]].fileType
  }

  /** A call of the first n asked for the whole album of source i and raised. */
  ghost predicate AlbumRaised(log: seq<Exchange>, n: nat, i: nat)
    requires n <= |log|
  {
    exists m :: 0 <= m < n && log[m].kind == CopyMessages && log[m].response.Raises? && i in log[m].group
  }

  /** A message is copied alone when its album raised, or when no media group can carry it or it has no partner there. */
  ghost predicate Alone(sources: seq<Source>, log: seq<Exchange>, n: nat, i: nat)
    requires n <= |log|
  {
    && i < |sources|
    && if sources[i].album != "" then AlbumRaised(log, n, i) else !Supported(sources[i].meta) || !HasPartner(sources, i)
  }

  /** The calls the upload may make after the first n: albums as a whole, chunks of at most CHUNK packable files as media
      groups, such a chunk once more as copies right after its media group raised, and single messages. */
  ghost predicate Lawful(sources: seq<Source>, log: seq<Exchange>, n: nat, kind: Kind, group: seq<nat>)
    requires n <= |log|
  {
    match kind
    case CopyMessages =>
      if FromAlbum(sources, group) then WholeAlbum(sources, group, sources[group[0]].album)
      else n > 0 && log[n - 1] == Exchange(SendMediaGroup, group, Raises)
    case SendMediaGroup => 0 < |group| <= CHUNK && Packed(sources, group)
    case CopyMessage => |group| == 1 && Alone(sources, log, n, group[0])
  }

  /** Each of the first n calls was lawful when it was made, and its response is what the API answered. */
  ghost predicate LawfulLog(sources: seq<Source>, api: Api, log: seq<Exchange>, n: nat)
    requires n <= |log|
  {
    n == 0 ||
    (&& LawfulLog(sources, api, log, n - 1)
     && log[n - 1].response == api(n - 1, log[n - 1].group)
     && Lawful(sources, log, n - 1, log[n - 1].kind, log[n - 1].group))
  }

  lemma LawfulLater(sources: seq<Source>, log: seq<Exchange>, longer: seq<Exchange>, n: nat, kind: Kind, group: seq<nat>)
    requires n <= |log| && log <= longer && Lawful(sources, log, n, kind, group)
    ensures Lawful(sources, longer, n, kind, group)
  {
    if kind == CopyMessage {
      AloneLater(sources, log, longer, n, n, group[0]);
    }
  }

  lemma AloneLater(sources: seq<Source>, log: seq<Exchange>, longer: seq<Exchange>, n: nat, n': nat, i: nat)
    requires n <= |log| && log <= longer && n <= n' <= |longer| && Alone(sources, log, n, i)
    ensures Alone(sources, longer, n', i)
  {
    if sources[i].album != "" {
      var m :| 0 <= m < n && log[m].kind == CopyMessages && log[m].response.Raises? && i in log[m].group;
      assert longer[m] == log[m];
    }
  }

  lemma {:induction false} LawfulPrefix(sources: seq<Source>, api: Api, log: seq<Exchange>, longer: seq<Exchange>, n: nat)
    requires n <= |log| && log <= longer && LawfulLog(sources, api, log, n)
    ensures LawfulLog(sources, api, longer, n)
  {
    if n > 0 {
      LawfulPrefix(sources, api, log, longer, n - 1);
      LawfulLater(sources, log, longer, n - 1, log[n - 1].kind, log[n - 1].group);
    }
  }

  lemma {:induction false} LawfulAt(sources: seq<Source>, api: Api, log: seq<Exchange>, n: nat, k: nat)
    requires k < n <= |log| && LawfulLog(sources, api, log, n)
    ensures log[k].response == api(k, log[k].group) && Lawful(sources, log, k, log[k].kind, log[k].group)
  {
    if k < n - 1 {
      LawfulAt(sources, api, log, n - 1, k);
    }
  }

  /** The album was asked for as a whole. */
  ghost predicate AlbumAsked(sources: seq<Source>, log: seq<Exchange>, name: string) {
    exists k :: 0 <= k < |log| && log[k].kind == CopyMessages && WholeAlbum(sources, log[k].group, name)
  }

  ghost predicate MediaGroupAsked(log: seq<Exchange>, i: nat) {
    exists k :: 0 <= k < |log| && log[k].kind == SendMediaGroup && i in log[k].group
  }

  lemma {:induction false} SettledByCall(sources: seq<Source>, log: seq<Exchange>, n: nat, i: nat) returns (k: nat)
    requires n <= |log| && Settled(sources, log, n, i) > 0
    ensures k < n && Final(sources, log[k]) && i in log[k].group
  {
    CountIn(log[n - 1].group, i);
    if Final(sources, log[n - 1]) && i in log[n - 1].group {
      k := n - 1;
    } else {
      k := SettledByCall(sources, log, n - 1, i);
    }
  }

  /** Lawful calls that settle a message of an album asked for the whole album. */
  lemma AlbumWasAsked(sources: seq<Source>, api: Api, log: seq<Exchange>, i: nat)
    requires LawfulLog(sources, api, log, |log|) && Settled(sources, log, |log|, i) > 0
    requires i < |sources| && sources[i].album != ""
    ensures AlbumAsked(sources, log, sources[i].album)
  {
    var k := SettledByCall(sources, log, |log|, i);
    k := FirstCallFor(sources, api, log, k, i);
    LawfulAt(sources, api, log, |log|, k);
    AlbumOfCall(sources, api, log, k, i);
  }

  /** A copy of a single message of an album follows a call for the album. */
  lemma FirstCallFor(sources: seq<Source>, api: Api, log: seq<Exchange>, k: nat, i: nat) returns (m: nat)
    requires LawfulLog(sources, api, log, |log|) && k < |log| && i in log[k].group
    requires i < |sources| && sources[i].album != ""
    ensures m < |log| && log[m].kind != CopyMessage && i in log[m].group
  {
    m := k;
    if log[k].kind == CopyMessage {
      LawfulAt(sources, api, log, |log|, k);
      assert AlbumRaised(log, k, i);
      m :| 0 <= m < k && log[m].kind == CopyMessages && log[m].response.Raises? && i in log[m].group;
    }
  }

  lemma AlbumOfCall(sources: seq<Source>, api: Api, log: seq<Exchange>, k: nat, i: nat)
    requires LawfulLog(sources, api, log, |log|) && k < |log| && Lawful(sources, log, k, log[k].kind, log[k].group)
    requires log[k].kind != CopyMessage && i in log[k].group && i < |sources| && sources[i].album != ""
    ensures log[k].kind == CopyMessages && WholeAlbum(sources, log[k].group, sources[i].album)
  {
    CountIn(log[k].group, i);
    if log[k].kind == CopyMessages && !FromAlbum(sources, log[k].group) {
      LawfulAt(sources, api, log, |log|, k - 1);
    }
  }

  /** Lawful calls that settle a supported file with a partner asked for it in a media group. */
  lemma MediaGroupWasAsked(sources: seq<Source>, api: Api, log: seq<Exchange>, i: nat)
    requires LawfulLog(sources, api, log, |log|) && Settled(sources, log, |log|, i) > 0
    requires i < |sources| && Packable(sources[i]) && HasPartner(sources, i)
    ensures MediaGroupAsked(log, i)
  {
    var k := SettledByCall(sources, log, |log|, i);
    LawfulAt(sources, api, log, |log|, k);
    CountIn(log[k].group, i);
    if log[k].kind == CopyMessages && !FromAlbum(sources, log[k].group) {
      assert log[k - 1].kind == SendMediaGroup && i in log[k - 1].group;
    }
  }

  // ---- the calls for a group ----

  /** One copy call for each of the first m sources. */
  function SingleCopies(api: Api, n: nat, group: seq<nat>, m: nat): (calls: seq<Exchange>)
    requires m <= |group|
    ensures |calls| == m
  {
    if m == 0 then []
    else SingleCopies(api, n, group, m - 1) + [Exchange(CopyMessage, [group[m - 1]], api(n + m - 1, [group[m - 1]]))]
  }

  lemma CopiesNext(api: Api, before: seq<Exchange>, sofar: seq<Exchange>, group: seq<nat>, i: nat)
    requires i < |group| && sofar == before + SingleCopies(api, |before|, group, i)
    ensures sofar + [Exchange(CopyMessage, [group[i]], api(|sofar|, [group[i]]))] ==
      before + SingleCopies(api, |before|, group, i + 1)
  {
  }

  /** The album as a whole, and message by message when that raised. */
  function AlbumCalls(api: Api, n: nat, group: seq<nat>): seq<Exchange> {
    [Exchange(CopyMessages, group, api(n, group))] +
    if api(n, group).Raises? then SingleCopies(api, n + 1, group, |group|) else []
  }

  /** The chunk as a media group, and once more as copies when that raised. */
  function ChunkCalls(api: Api, n: nat, chunk: seq<nat>): seq<Exchange> {
    [Exchange(SendMediaGroup, chunk, api(n, chunk))] +
    if api(n, chunk).Raises? then [Exchange(CopyMessages, chunk, api(n + 1, chunk))] else []
  }

  /** How many chunks of CHUNK the group has; the last one may be shorter. */
  function ChunkCount(group: seq<nat>): nat {
    (|group| + CHUNK - 1) / CHUNK
  }

  function ChunkEnd(group: seq<nat>, c: nat): nat {
    if c * CHUNK <= |group| then c * CHUNK else |group|
  }

  function Chunk(group: seq<nat>, c: nat): (chunk: seq<nat>)
    requires c < ChunkCount(group)
    ensures 0 < |chunk| <= CHUNK && (c < ChunkCount(group) - 1 ==> |chunk| == CHUNK)
  {
    group[c * CHUNK..ChunkEnd(group, c + 1)]
  }

  /** The first c chunks were asked for as media groups since the given call. */
  ghost predicate ChunksAsked(log: seq<Exchange>, n: nat, group: seq<nat>, c: nat)
    requires c <= ChunkCount(group)
  {
    forall b :: 0 <= b < c ==> Asked(log, n, SendMediaGroup, Chunk(group, b))
  }

  ghost predicate Asked(log: seq<Exchange>, n: nat, kind: Kind, group: seq<nat>) {
    exists k :: n <= k < |log| && log[k].kind == kind && log[k].group == group
  }

  lemma AskedLater(log: seq<Exchange>, longer: seq<Exchange>, n: nat, kind: Kind, group: seq<nat>)
    requires log <= longer && Asked(log, n, kind, group)
    ensures Asked(longer, n, kind, group)
  {
    var k :| n <= k < |log| && log[k].kind == kind && log[k].group == group;
    assert longer[k] == log[k];
  }

  /** The calls made since before settle exactly the sources of the group, each as often as it lists them. */
  ghost predicate Settles(sources: seq<Source>, before: seq<Exchange>, log: seq<Exchange>, group: seq<nat>) {
    && before <= log
    && forall i: nat :: Settled(sources, log, |log|, i) == Settled(sources, before, |before|, i) + Count(group, i)
  }

  lemma {:induction false} SinglesSettle(sources: seq<Source>, api: Api, n: nat, group: seq<nat>, m: nat, i: nat)
    requires m <= |group|
    ensures Settled(sources, SingleCopies(api, n, group, m), m, i) == Count(group[..m], i)
  {
    if m > 0 {
      SinglesSettle(sources, api, n, group, m - 1, i);
      SettledPrefix(sources, SingleCopies(api, n, group, m - 1), SingleCopies(api, n, group, m), m - 1, i);
      CountNext(group, m - 1, i);
    }
  }

  lemma OneSettles(sources: seq<Source>, e: Exchange, rest: seq<Exchange>, i: nat)
    ensures Settled(sources, [e] + rest, 1 + |rest|, i) ==
      (if Final(sources, e) then Count(e.group, i) else 0) + Settled(sources, rest, |rest|, i)
  {
    SettledConcat(sources, [e], rest, |rest|, i);
    assert Settled(sources, [e], 0, i) == 0;
  }

  lemma AlbumSettles(sources: seq<Source>, api: Api, before: seq<Exchange>, group: seq<nat>)
    requires FromAlbum(sources, group)
    ensures Settles(sources, before, before + AlbumCalls(api, |before|, group), group)
  {
    var n, calls := |before|, AlbumCalls(api, |before|, group);
    forall i: nat ensures Settled(sources, calls, |calls|, i) == Count(group, i) {
      OneSettles(sources, Exchange(CopyMessages, group, api(n, group)),
        if api(n, group).Raises? then SingleCopies(api, n + 1, group, |group|) else [], i);
      SinglesSettle(sources, api, n + 1, group, |group|, i);
      assert group[..|group|] == group;
    }
    SettlesBy(sources, before, calls, group);
  }

  lemma AlbumDone(sources: seq<Source>, api: Api, before: seq<Exchange>, log: seq<Exchange>, group: seq<nat>)
    requires FromAlbum(sources, group)
    requires var asked := before + [Exchange(CopyMessages, group, api(|before|, group))];
      log == if api(|before|, group).Raises? then asked + SingleCopies(api, |asked|, group, |group|) else asked
    ensures log == before + AlbumCalls(api, |before|, group) && Settles(sources, before, log, group)
  {
    AlbumSettles(sources, api, before, group);
    assert log == before + AlbumCalls(api, |before|, group);
  }

  lemma ChunkSettles(sources: seq<Source>, api: Api, before: seq<Exchange>, chunk: seq<nat>)
    requires !FromAlbum(sources, chunk)
    ensures Settles(sources, before, before + ChunkCalls(api, |before|, chunk), chunk)
  {
    var n, calls := |before|, ChunkCalls(api, |before|, chunk);
    var e, again := Exchange(SendMediaGroup, chunk, api(n, chunk)), Exchange(CopyMessages, chunk, api(n + 1, chunk));
    forall i: nat ensures Settled(sources, calls, |calls|, i) == Count(chunk, i) {
      OneSettles(sources, e, if api(n, chunk).Raises? then [again] else [], i);
      OneSettles(sources, again, [], i);
      assert [again] + [] == [again];
    }
    SettlesBy(sources, before, calls, chunk);
  }

  lemma SettlesBy(sources: seq<Source>, before: seq<Exchange>, calls: seq<Exchange>, group: seq<nat>)
    requires forall i: nat :: Settled(sources, calls, |calls|, i) == Count(group, i)
    ensures Settles(sources, before, before + calls, group)
  {
    forall i: nat
      ensures Settled(sources, before + calls, |before + calls|, i) == Settled(sources, before, |before|, i) + Count(group, i)
    {
      SettledConcat(sources, before, calls, |calls|, i);
    }
  }

  lemma EachSettles(sources: seq<Source>, api: Api, before: seq<Exchange>, group: seq<nat>)
    ensures Settles(sources, before, before + SingleCopies(api, |before|, group, |group|), group)
  {
    var calls := SingleCopies(api, |before|, group, |group|);
    forall i: nat ensures Settled(sources, calls, |calls|, i) == Count(group, i) {
      SinglesSettle(sources, api, |before|, group, |group|, i);
      assert group[..|group|] == group;
    }
    SettlesBy(sources, before, calls, group);
  }

  lemma SettlesBoth(sources: seq<Source>, a: seq<Exchange>, b: seq<Exchange>, c: seq<Exchange>,
      first: seq<nat>, second: seq<nat>, all: seq<nat>)
    requires Settles(sources, a, b, first) && Settles(sources, b, c, second)
    requires forall i: nat :: Count(all, i) == Count(first, i) + Count(second, i)
    ensures Settles(sources, a, c, all)
  {
  }

  lemma SettlesSlice(sources: seq<Source>, a: seq<Exchange>, b: seq<Exchange>, c: seq<Exchange>, group: seq<nat>, i: nat, last: nat)
    requires i <= last <= |group| && Settles(sources, a, b, group[..i]) && Settles(sources, b, c, group[i..last])
    ensures Settles(sources, a, c, group[..last])
  {
    assert group[..last] == group[..i] + group[i..last];
    SettlesBoth(sources, a, b, c, group[..i], group[i..last], group[..last]);
  }

  /** The calls settle the members of the first g groups. */
  ghost predicate SettlesGroups(sources: seq<Source>, before: seq<Exchange>, log: seq<Exchange>, groups: seq<seq<nat>>, g: nat)
    requires g <= |groups|
  {
    && before <= log
    && forall i: nat :: Settled(sources, log, |log|, i) == Settled(sources, before, |before|, i) + Occurs(groups, g, i)
  }

  lemma SettlesNext(sources: seq<Source>, a: seq<Exchange>, b: seq<Exchange>, c: seq<Exchange>, groups: seq<seq<nat>>, g: nat)
    requires g < |groups| && SettlesGroups(sources, a, b, groups, g) && Settles(sources, b, c, groups[g])
    ensures SettlesGroups(sources, a, c, groups, g + 1)
  {
  }

  // ---- copying ----

  class Collector {
    ghost const sources: seq<Source>
    const api: Api
    var channelMsgIds: seq<Copy>
    var filesMeta: seq<nat>
    var calls: nat
    /** History: every call made. */
    ghost var log: seq<Exchange>

    /** The log is what the API answered, every call in it was lawful, and the two lists are what it says was collected. */
    ghost predicate Valid()
      reads this
    {
      && calls == |log| && LawfulLog(sources, api, log, |log|)
      && channelMsgIds == CollectedIds(log, |log|) && filesMeta == CollectedSources(log, |log|)
    }

    constructor (ghost sources: seq<Source>, api: Api)
      ensures Valid() && log == [] && this.sources == sources && this.api == api
    {
      channelMsgIds, filesMeta, calls := [], [], 0;
      this.sources, this.api := sources, api;
      log := [];
    }

    /** for s, c in zip(sources, copies): append */
    method AppendZipped(group: seq<nat>, copies: seq<Copy>)
      modifies this`channelMsgIds, this`filesMeta
      ensures var n := if |group| <= |copies| then |group| else |copies|;
        channelMsgIds == old(channelMsgIds) + copies[..n] && filesMeta == old(filesMeta) + group[..n]
    {
      var n := if |group| <= |copies| then |group| else |copies|;
      for k := 0 to n
        invariant channelMsgIds == old(channelMsgIds) + copies[..k] && filesMeta == old(filesMeta) + group[..k]
      {
        channelMsgIds, filesMeta := channelMsgIds + [copies[k]], filesMeta + [group[k]];
      }
    }

    /** One API call; what it returns is collected beside the sources asked for, up to the shorter list. */
    method Ask(kind: Kind, group: seq<nat>) returns (response: Response)
      requires Valid() && Lawful(sources, log, |log|, kind, group)
      modifies this
      ensures Valid() && response == api(|old(log)|, group)
      ensures log == old(log) + [Exchange(kind, group, response)]
    {
      response := api(calls, group);
      ghost var e, before := Exchange(kind, group, response), log;
      log, calls := log + [e], calls + 1;
      if response.Returns? {
        AppendZipped(group, response.copies);
      }
      CollectedPrefix(before, log, |before|);
      LawfulPrefix(sources, api, before, log, |before|);
      LawfulLater(sources, before, log, |before|, kind, group);
    }

    /** safe_copy_message for each source; a failure leaves it out. */
    method CopyEach(group: seq<nat>)
      requires Valid() && forall j :: 0 <= j < |group| ==> Alone(sources, log, |log|, group[j])
      modifies this
      ensures Valid() && log == old(log) + SingleCopies(api, |old(log)|, group, |group|)
    {
      ghost var before := log;
      for i := 0 to |group|
        invariant Valid() && log == before + SingleCopies(api, |before|, group, i)
      {
        ghost var sofar := log;
        AloneLater(sources, before, sofar, |before|, |sofar|, group[i]);
        var response := Ask(CopyMessage, [group[i]]);
        CopiesNext(api, before, sofar, group, i);
      }
    }

    /** An album: one copy_messages call for all of it, message by message when it raises. */
    method CopyAlbum(group: seq<nat>, ghost name: string)
      requires Valid() && WholeAlbum(sources, group, name)
      modifies this
      ensures Valid() && log == old(log) + AlbumCalls(api, |old(log)|, group) && Settles(sources, old(log), log, group)
    {
      WholeIsFrom(sources, group, name);
      var response := Ask(CopyMessages, group);
      if response.Raises? {
        assert log[|log| - 1].group == group;
        CopyEach(group);
      }
      AlbumDone(sources, api, old(log), log, group);
    }

    /** A chunk of supported files: one send_media_group call, one copy_messages call when it raises. */
    method SendChunk(chunk: seq<nat>)
      requires Valid() && 0 < |chunk| <= CHUNK && Packed(sources, chunk)
      modifies this
      ensures Valid() && log == old(log) + ChunkCalls(api, |old(log)|, chunk) && Settles(sources, old(log), log, chunk)
    {
      ChunkSettles(sources, api, log, chunk);
      var sent := Ask(SendMediaGroup, chunk);
      if sent.Raises? {
        var copied := Ask(CopyMessages, chunk);
      }
    }

    /** Chunks of CHUNK; the last one holds what is left, down to a single file. */
    method SendChunks(group: seq<nat>)
      requires Valid() && Packed(sources, group)
      modifies this
      ensures Valid() && Settles(sources, old(log), log, group)
      ensures ChunksAsked(log, |old(log)|, group, ChunkCount(group))
    {
      ghost var before, c := log, 0;
      var i := 0;
      while i < |group|
        invariant 0 <= c <= ChunkCount(group) && i == ChunkEnd(group, c)
        invariant Valid() && Settles(sources, before, log, group[..i]) && ChunksAsked(log, |before|, group, c)
      {
        var last := if i + CHUNK <= |group| then i + CHUNK else |group|;
        ghost var sofar := log;
        PackedPart(sources, group, i, last);
        SendChunk(group[i..last]);
        assert log[|sofar|] == ChunkCalls(api, |sofar|, Chunk(group, c))[0];
        SettlesSlice(sources, before, sofar, log, group, i, last);
        ChunksAskedNext(sofar, log, |before|, group, c);
        i, c := last, c + 1;
      }
      assert group[..|group|] == group;
    }

    /** Files of one type: media groups for two or more supported ones, single copies for the rest. */
    method SendType(group: seq<nat>, supported: seq<bool>, ghost fileType: string)
      requires Valid() && WholeType(sources, group, fileType) && MarksSupported(sources, supported) && InRange(group, |supported|)
      modifies this
      ensures Valid() && Settles(sources, old(log), log, group)
      ensures var valid := Select(supported, group, true);
        |valid| >= 2 ==> ChunksAsked(log, |old(log)|, valid, ChunkCount(valid))
    {
      var valid, unsupported := Separate(supported, group);
      PartsCount(supported, group);
      UnsupportedAlone(sources, group, fileType, supported);
      ghost var before, chunked := log, [];
      if |valid| >= 2 {
        ValidPacked(sources, group, fileType, supported);
        SendChunks(valid);
        chunked := valid;
      } else {
        LoneAlone(sources, group, fileType, supported);
        unsupported := unsupported + valid;
      }
      ghost var sofar := log;
      CopyEach(unsupported);
      EachSettles(sources, api, sofar, unsupported);
      SettlesBoth(sources, before, sofar, log, chunked, unsupported, group);
      if |valid| >= 2 {
        ChunksAskedLater(sofar, log, |before|, valid, ChunkCount(valid));
      }
    }

    method SendTypes(groups: seq<seq<nat>>, supported: seq<bool>, ghost labels: seq<string>)
      requires Valid() && MarksSupported(sources, supported) && |labels| == |groups| && AllInRange(groups, |supported|)
      requires forall g :: 0 <= g < |groups| ==> WholeType(sources, groups[g], labels[g])
      modifies this
      ensures Valid() && SettlesGroups(sources, old(log), log, groups, |groups|)
    {
      ghost var before := log;
      for g := 0 to |groups|
        invariant Valid() && SettlesGroups(sources, before, log, groups, g)
      {
        ghost var sofar := log;
        SendType(groups[g], supported, labels[g]);
        SettlesNext(sources, before, sofar, log, groups, g);
      }
    }

    method CopyAlbums(groups: seq<seq<nat>>, ghost names: seq<string>)
      requires Valid() && |names| == |groups| && forall g :: 0 <= g < |groups| ==> WholeAlbum(sources, groups[g], names[g])
      modifies this
      ensures Valid() && SettlesGroups(sources, old(log), log, groups, |groups|)
    {
      ghost var before := log;
      for g := 0 to |groups|
        invariant Valid() && SettlesGroups(sources, before, log, groups, g)
      {
        ghost var sofar := log;
        CopyAlbum(groups[g], names[g]);
        SettlesNext(sources, before, sofar, log, groups, g);
      }
    }
  }

  ghost predicate AllInRange(groups: seq<seq<nat>>, n: nat) {
    forall g :: 0 <= g < |groups| ==> InRange(groups[g], n)
  }

  lemma ChunksAskedLater(log: seq<Exchange>, longer: seq<Exchange>, n: nat, group: seq<nat>, c: nat)
    requires c <= ChunkCount(group) && log <= longer && ChunksAsked(log, n, group, c)
    ensures ChunksAsked(longer, n, group, c)
  {
    forall b | 0 <= b < c ensures Asked(longer, n, SendMediaGroup, Chunk(group, b)) {
      AskedLater(log, longer, n, SendMediaGroup, Chunk(group, b));
    }
  }

  lemma ChunksAskedNext(log: seq<Exchange>, longer: seq<Exchange>, n: nat, group: seq<nat>, c: nat)
    requires c < ChunkCount(group) && n <= |log| < |longer| && log <= longer && ChunksAsked(log, n, group, c)
    requires longer[|log|].kind == SendMediaGroup && longer[|log|].group == Chunk(group, c)
    ensures ChunksAsked(longer, n, group, c + 1)
  {
    ChunksAskedLater(log, longer, n, group, c);
    assert Asked(longer, n, SendMediaGroup, Chunk(group, c));
  }

  lemma PartsCount(supported: seq<bool>, group: seq<nat>)
    requires InRange(group, |supported|)
    ensures forall i: nat ::
      Count(group, i) == Count(Select(supported, group, true), i) + Count(Select(supported, group, false), i)
  {
    forall i: nat
      ensures Count(group, i) == Count(Select(supported, group, true), i) + Count(Select(supported, group, false), i)
    {
      SelectCount(supported, group, true, i);
      SelectCount(supported, group, false, i);
      CountIn(group, i);
    }
  }

  ghost predicate MarksSupported(sources: seq<Source>, supported: seq<bool>) {
    |supported| == |sources| && forall i :: 0 <= i < |sources| ==> supported[i] == Supported(sources[i].meta)
  }

  lemma WholeIsFrom(sources: seq<Source>, group: seq<nat>, name: string)
    requires WholeAlbum(sources, group, name)
    ensures FromAlbum(sources, group) && sources[group[0]].album == name
    ensures forall j :: 0 <= j < |group| ==> group[j] < |sources| && sources[group[j]].album == name
  {
    forall j | 0 <= j < |group| ensures group[j] < |sources| && sources[group[j]].album == name {
      CountIn(group, group[j]);
    }
  }

  lemma PackedPart(sources: seq<Source>, group: seq<nat>, i: nat, last: nat)
    requires Packed(sources, group) && i < last <= |group|
    ensures Packed(sources, group[i..last])
  {
    var chunk := group[i..last];
    forall j | 0 <= j < |chunk|
      ensures chunk[j] < |sources| && Packable(sources[chunk[j]]) && HasPartner(sources, chunk[j])
      ensures sources[chunk[j]].fileType == sources[group[0]].fileType
    {
      assert chunk[j] == group[i + j];
    }
  }

  /** Which files of a type are on which side of the separation, each once. */
  lemma SideOf(sources: seq<Source>, group: seq<nat>, fileType: string, supported: seq<bool>, flag: bool, i: nat)
    requires WholeType(sources, group, fileType) && MarksSupported(sources, supported) && InRange(group, |supported|)
    ensures var part := Select(supported, group, flag);
      && Count(part, i) <= 1
      && (i in part <==>
          i < |sources| && sources[i].album == "" && sources[i].fileType == fileType && Supported(sources[i].meta) == flag)
  {
    SelectCount(supported, group, flag, i);
    CountIn(Select(supported, group, flag), i);
  }

  lemma UnsupportedAlone(sources: seq<Source>, group: seq<nat>, fileType: string, supported: seq<bool>)
    requires WholeType(sources, group, fileType) && MarksSupported(sources, supported) && InRange(group, |supported|)
    ensures var part := Select(supported, group, false);
      forall j :: 0 <= j < |part| ==> part[j] < |sources| && sources[part[j]].album == "" && !Supported(sources[part[j]].meta)
  {
    var part := Select(supported, group, false);
    forall j | 0 <= j < |part| ensures part[j] < |sources| && sources[part[j]].album == "" && !Supported(sources[part[j]].meta) {
      SideOf(sources, group, fileType, supported, false, part[j]);
    }
  }

  /** Two or more supported files of a type are partners of each other. */
  lemma ValidPacked(sources: seq<Source>, group: seq<nat>, fileType: string, supported: seq<bool>)
    requires WholeType(sources, group, fileType) && MarksSupported(sources, supported) && InRange(group, |supported|)
    requires |Select(supported, group, true)| >= 2
    ensures Packed(sources, Select(supported, group, true))
  {
    var valid := Select(supported, group, true);
    forall j | 0 <= j < |valid|
      ensures valid[j] < |sources| && Packable(sources[valid[j]]) && HasPartner(sources, valid[j])
      ensures sources[valid[j]].fileType == fileType
    {
      var other := if j == 0 then 1 else 0;
      SideOf(sources, group, fileType, supported, true, valid[j]);
      SideOf(sources, group, fileType, supported, true, valid[other]);
      if valid[j] == valid[other] {
        CountedTwice(valid, if j < other then j else other, if j < other then other else j);
        assert false;
      }
    }
  }

  lemma CountedTwice(part: seq<nat>, j: nat, k: nat)
    requires j < k < |part| && part[j] == part[k]
    ensures Count(part, part[j]) >= 2
  {
    CountConcat(part[..k], part[k..], part[j]);
    assert part == part[..k] + part[k..];
    CountIn(part[..k], part[j]);
    CountIn(part[k..], part[j]);
    assert part[..k][j] == part[k..][0] == part[j];
  }

  /** A lone supported file of a type has no partner. */
  lemma LoneAlone(sources: seq<Source>, group: seq<nat>, fileType: string, supported: seq<bool>)
    requires WholeType(sources, group, fileType) && MarksSupported(sources, supported) && InRange(group, |supported|)
    requires |Select(supported, group, true)| < 2
    ensures var valid := Select(supported, group, true);
      forall j :: 0 <= j < |valid| ==> valid[j] < |sources| && sources[valid[j]].album == "" && !HasPartner(sources, valid[j])
  {
    var valid := Select(supported, group, true);
    forall j | 0 <= j < |valid|
      ensures valid[j] < |sources| && sources[valid[j]].album == "" && !HasPartner(sources, valid[j])
    {
      SideOf(sources, group, fileType, supported, true, valid[j]);
      forall k | 0 <= k < |sources| && Packable(sources[k]) && sources[k].fileType == fileType ensures k == valid[j] {
        SideOf(sources, group, fileType, supported, true, k);
      }
    }
  }

  /** The messages in albums, or those outside, each once. */
  ghost predicate SideOfAll(sources: seq<Source>, part: seq<nat>, inAlbum: bool) {
    forall i: nat :: Count(part, i) == if i < |sources| && (sources[i].album != "") == inAlbum then 1 else 0
  }

  lemma AlbumGroups(sources: seq<Source>, albumed: seq<nat>, keys: seq<string>, labels: seq<string>, groups: seq<seq<nat>>)
    requires |keys| == |sources| && (forall i :: 0 <= i < |sources| ==> keys[i] == sources[i].album)
    requires SideOfAll(sources, albumed, true)
    requires Partitions(groups, albumed) && Labelled(keys, labels, groups) && Distinct(labels)
    ensures forall g :: 0 <= g < |groups| ==> WholeAlbum(sources, groups[g], labels[g])
  {
    forall g | 0 <= g < |groups| ensures WholeAlbum(sources, groups[g], labels[g]) {
      forall i: nat ensures Count(groups[g], i) == if i < |sources| && sources[i].album == labels[g] != "" then 1 else 0 {
        GroupIsWhole(keys, albumed, labels, groups, g, i);
      }
      CountIn(groups[g], groups[g][0]);
    }
  }

  lemma TypeGroups(sources: seq<Source>, singles: seq<nat>, keys: seq<string>, labels: seq<string>, groups: seq<seq<nat>>)
    requires |keys| == |sources| && (forall i :: 0 <= i < |sources| ==> keys[i] == sources[i].fileType)
    requires SideOfAll(sources, singles, false)
    requires Partitions(groups, singles) && Labelled(keys, labels, groups) && Distinct(labels)
    ensures AllInRange(groups, |sources|)
    ensures forall g :: 0 <= g < |groups| ==> WholeType(sources, groups[g], labels[g])
  {
    forall g | 0 <= g < |groups|
      ensures WholeType(sources, groups[g], labels[g]) && InRange(groups[g], |sources|)
    {
      forall i: nat
        ensures Count(groups[g], i) ==
          if i < |sources| && sources[i].album == "" && sources[i].fileType == labels[g] then 1 else 0
      {
        GroupIsWhole(keys, singles, labels, groups, g, i);
      }
      forall j | 0 <= j < |groups[g]| ensures groups[g][j] < |sources| {
        CountIn(groups[g], groups[g][j]);
      }
    }
  }

  /** Separating all indices leaves each on its side once. */
  lemma SelectedOnce(flags: seq<bool>, flag: bool)
    requires InRange(Range(|flags|), |flags|)
    ensures forall i: nat :: Count(Select(flags, Range(|flags|), flag), i) == if i < |flags| && flags[i] == flag then 1 else 0
    ensures InRange(Select(flags, Range(|flags|), flag), |flags|)
  {
    var part := Select(flags, Range(|flags|), flag);
    forall i: nat ensures Count(part, i) == if i < |flags| && flags[i] == flag then 1 else 0 {
      RangeIsOnce(|flags|, i);
      SelectCount(flags, Range(|flags|), flag, i);
    }
    forall j | 0 <= j < |part| ensures part[j] < |flags| {
      CountIn(part, part[j]);
    }
  }

  /** The copying part of end_upload, over any outcomes of the API calls. Every source is asked for in exactly one final
      call, so each contributes at most one entry, and every source one exactly when each final call answers in full.
      Albums are asked for as a whole, and supported files with a partner of their type as media groups. While the API
      keeps its promise, ids and metadata are aligned exactly when every call is in place. */
  method EndUpload(sources: seq<Source>, api: Api) returns (collector: Collector)
    ensures fresh(collector) && collector.Valid() && collector.sources == sources && collector.api == api
    ensures forall i: nat :: Settled(sources, collector.log, |collector.log|, i) == if i < |sources| then 1 else 0
    ensures forall i :: 0 <= i < |sources| && sources[i].album != "" ==> AlbumAsked(sources, collector.log, sources[i].album)
    ensures forall i: nat :: i < |sources| && Packable(sources[i]) && HasPartner(sources, i) ==> MediaGroupAsked(collector.log, i)
    ensures forall i: nat :: Count(collector.filesMeta, i) <= if i < |sources| then 1 else 0
    ensures (forall i: nat :: i < |sources| ==> i in collector.filesMeta) <==>
      forall k :: 0 <= k < |collector.log| && Final(sources, collector.log[k]) ==>
        InFull(api(k, collector.log[k].group), collector.log[k].group)
    ensures (forall k :: 0 <= k < |collector.log| ==> Kept(sources, collector.log[k])) ==>
      (Aligned(sources, collector.channelMsgIds, collector.filesMeta) <==>
        forall k :: 0 <= k < |collector.log| ==> InPlace(sources, collector.log[k]))
  {
    var names, albums, labels, types := Group(sources);
    var supported := seq(|sources|, i requires 0 <= i < |sources| => Supported(sources[i].meta));
    collector := new Collector(sources, api);
    collector.CopyAlbums(albums, names);
    ghost var copied := collector.log;
    collector.SendTypes(types, supported, labels);
    SettledOnce(sources, copied, collector.log, albums, types);
    ForEverySource(sources, api, collector.log);
    AlignedWhileKept(sources, collector.log);
  }

  /** The albums, and the types of the messages outside albums. */
  method Group(sources: seq<Source>)
    returns (names: seq<string>, albums: seq<seq<nat>>, labels: seq<string>, types: seq<seq<nat>>)
    ensures |names| == |albums| && forall g :: 0 <= g < |albums| ==> WholeAlbum(sources, albums[g], names[g])
    ensures |labels| == |types| && forall g :: 0 <= g < |types| ==> WholeType(sources, types[g], labels[g])
    ensures AllInRange(types, |sources|)
    ensures Grouped(sources, albums, types)
  {
    var albumed, singles := Sides(sources);
    var albumOf := seq(|sources|, i requires 0 <= i < |sources| => sources[i].album);
    names, albums := GroupBy(albumOf, albumed);
    AlbumGroups(sources, albumed, albumOf, names, albums);
    var typeOf := seq(|sources|, i requires 0 <= i < |sources| => sources[i].fileType);
    labels, types := GroupBy(typeOf, singles);
    TypeGroups(sources, singles, typeOf, labels, types);
    GroupedOnce(sources, albumed, albums, singles, types);
  }

  method Sides(sources: seq<Source>) returns (albumed: seq<nat>, singles: seq<nat>)
    ensures SideOfAll(sources, albumed, true) && SideOfAll(sources, singles, false)
    ensures InRange(albumed, |sources|) && InRange(singles, |sources|)
  {
    var inAlbum := seq(|sources|, i requires 0 <= i < |sources| => sources[i].album != "");
    albumed, singles := Separate(inAlbum, Range(|sources|));
    SelectedOnce(inAlbum, true);
    SelectedOnce(inAlbum, false);
  }

  lemma GroupedOnce(sources: seq<Source>, albumed: seq<nat>, albums: seq<seq<nat>>, singles: seq<nat>, types: seq<seq<nat>>)
    requires SideOfAll(sources, albumed, true) && Partitions(albums, albumed)
    requires SideOfAll(sources, singles, false) && Partitions(types, singles)
    ensures Grouped(sources, albums, types)
  {
    forall i: nat
      ensures Occurs(albums, |albums|, i) + Occurs(types, |types|, i) == if i < |sources| then 1 else 0
    {
      assert Occurs(albums, |albums|, i) == Count(albumed, i);
    }
  }

  lemma AlignedWhileKept(sources: seq<Source>, log: seq<Exchange>)
    ensures (forall k :: 0 <= k < |log| ==> Kept(sources, log[k])) ==>
      (Aligned(sources, CollectedIds(log, |log|), CollectedSources(log, |log|)) <==>
        forall k :: 0 <= k < |log| ==> InPlace(sources, log[k]))
  {
    if forall k :: 0 <= k < |log| ==> Kept(sources, log[k]) {
      AlignedIff(sources, log);
    }
  }

  /** Each message is in one album or one type. */
  ghost predicate Grouped(sources: seq<Source>, albums: seq<seq<nat>>, types: seq<seq<nat>>) {
    forall i: nat :: Occurs(albums, |albums|, i) + Occurs(types, |types|, i) == if i < |sources| then 1 else 0
  }

  /** All albums and then all types: every source is settled once. */
  lemma SettledOnce(sources: seq<Source>, copied: seq<Exchange>, log: seq<Exchange>, albums: seq<seq<nat>>, types: seq<seq<nat>>)
    requires SettlesGroups(sources, [], copied, albums, |albums|) && SettlesGroups(sources, copied, log, types, |types|)
    requires Grouped(sources, albums, types)
    ensures forall i: nat :: Settled(sources, log, |log|, i) == if i < |sources| then 1 else 0
  {
    forall i: nat ensures Settled(sources, log, |log|, i) == if i < |sources| then 1 else 0 {
      SettledInTurn(sources, copied, log, albums, types, i);
    }
  }

  lemma SettledInTurn(sources: seq<Source>, copied: seq<Exchange>, log: seq<Exchange>, albums: seq<seq<nat>>, types: seq<seq<nat>>, i: nat)
    requires SettlesGroups(sources, [], copied, albums, |albums|) && SettlesGroups(sources, copied, log, types, |types|)
    ensures Settled(sources, log, |log|, i) == Occurs(albums, |albums|, i) + Occurs(types, |types|, i)
  {
    var none: seq<Exchange> := [];
    assert Settled(sources, none, 0, i) == 0;
  }

  /** What one final call for each source means for the lists. */
  lemma ForEverySource(sources: seq<Source>, api: Api, log: seq<Exchange>)
    requires LawfulLog(sources, api, log, |log|)
    requires forall i: nat :: Settled(sources, log, |log|, i) == if i < |sources| then 1 else 0
    ensures forall i :: 0 <= i < |sources| && sources[i].album != "" ==> AlbumAsked(sources, log, sources[i].album)
    ensures forall i: nat :: i < |sources| && Packable(sources[i]) && HasPartner(sources, i) ==> MediaGroupAsked(log, i)
    ensures forall i: nat :: Count(CollectedSources(log, |log|), i) <= if i < |sources| then 1 else 0
    ensures (forall i: nat :: i < |sources| ==> i in CollectedSources(log, |log|)) <==>
      forall k :: 0 <= k < |log| && Final(sources, log[k]) ==> InFull(api(k, log[k].group), log[k].group)
  {
    forall i | 0 <= i < |sources| && sources[i].album != "" ensures AlbumAsked(sources, log, sources[i].album) {
      AlbumWasAsked(sources, api, log, i);
    }
    forall i: nat | i < |sources| && Packable(sources[i]) && HasPartner(sources, i) ensures MediaGroupAsked(log, i) {
      MediaGroupWasAsked(sources, api, log, i);
    }
    forall k | 0 <= k < |log| ensures log[k].response == api(k, log[k].group) {
      LawfulAt(sources, api, log, |log|, k);
    }
    AllCollectedIff(sources, log);
  }

  lemma AllCollectedIff(sources: seq<Source>, log: seq<Exchange>)
    requires forall i: nat :: Settled(sources, log, |log|, i) == if i < |sources| then 1 else 0
    ensures forall i: nat :: Count(CollectedSources(log, |log|), i) <= if i < |sources| then 1 else 0
    ensures (forall i: nat :: i < |sources| ==> i in CollectedSources(log, |log|)) <==>
      forall k :: 0 <= k < |log| && Final(sources, log[k]) ==> InFull(log[k].response, log[k].group)
  {
    var metas := CollectedSources(log, |log|);
    forall i: nat
      ensures Count(metas, i) <= if i < |sources| then 1 else 0
      ensures i in metas <==> Count(metas, i) > 0
      ensures (forall k :: 0 <= k < |log| && Final(sources, log[k]) ==> InFull(log[k].response, log[k].group)) ==>
        Count(metas, i) == if i < |sources| then 1 else 0
    {
      CollectedOfFinal(sources, log, |log|, i);
      CollectedCount(log, |log|, i);
      CountIn(metas, i);
      if forall k :: 0 <= k < |log| && Final(sources, log[k]) ==> InFull(log[k].response, log[k].group) {
        AllOfFinal(sources, log, |log|, i);
      }
    }
    forall k | 0 <= k < |log| && Final(sources, log[k]) && !InFull(log[k].response, log[k].group)
      ensures exists i: nat :: i < |sources| && i !in metas
    {
      ShortLeavesOut(sources, log, |log|, k);
      CollectedCount(log, |log|, log[k].group[Zipped(log[k])]);
    }
  }
}
