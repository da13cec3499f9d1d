/**
 * The shard-add branch of `handle_log`, with its network and file-system
 * calls taken out: which `ProposalAdded` events it acts on, which on-chain
 * shards it fetches, which of them it lists, the folder every shard's files
 * go to, and the file list it hands to the CSV loader.
 *
 * The folders that already exist, the shard records the contract returns and
 * the directory listings the storage network returns are parameters.
 */
module ShardAdd {
  import opened Wrappers
  import opened Primitives
  import opened AbiEncoding
  import opened LogHandler
  import opened RoundTrip
  import DataLoader

  type ShardId = DataLoader.ShardId

  // ---------------------------------------------------------------------
  // Folder names
  // ---------------------------------------------------------------------

  function Digit(d: nat): (c: char)
    requires d < 10
    ensures '0' <= c <= '9'
  {
    ('0' as int + d) as char
  }

  function DigitValue(c: char): nat
  {
    if '0' <= c <= '9' then c as int - '0' as int else 0
  }

  /** The decimal numeral of `n`, without leading zeros, as `format!("{}", n)` writes it. */
  function Decimal(n: nat): (s: string)
    ensures |s| >= 1
  {
    if n < 10 then [Digit(n)] else Decimal(n / 10) + [Digit(n % 10)]
  }

  /** The value of a numeral, read most significant digit first. */
  function DecimalValue(s: string): nat
  {
    if s == [] then 0 else DecimalValue(s[..|s| - 1]) * 10 + DigitValue(s[|s| - 1])
  }

  /** Reading a numeral back gives the number: distinct numbers have distinct numerals. */
  lemma {:induction false} DecimalRoundTrip(n: nat)
    ensures DecimalValue(Decimal(n)) == n
  {
    if n >= 10 {
      DecimalRoundTrip(n / 10);
      var s := Decimal(n);
      assert s[..|s| - 1] == Decimal(n / 10);
    }
  }

  /** The folder a shard's files are written to: `new_shard` for the proposed shard, `shard_<i>` for on-chain shard `i`. */
  function FolderName(id: ShardId): (name: string)
    ensures id.None? ==> name == "new_shard"
    ensures id.Some? ==> |name| > 6 && name[..6] == "shard_" && DecimalValue(name[6..]) == id.value
  {
    match id
    case None => "new_shard"
    case Some(i) =>
      DecimalRoundTrip(i);
      var name := "shard_" + Decimal(i);
      assert name[6..] == Decimal(i);
      name
  }

  lemma {:induction false} FolderNameStart(id: ShardId)
    ensures FolderName(id)[0] == if id.None? then 'n' else 's'
  {
  }

  /** Different shards never share a folder. */
  lemma {:induction false} FolderNameInjective(a: ShardId, b: ShardId)
    requires FolderName(a) == FolderName(b)
    ensures a == b
  {
    FolderNameStart(a);
    FolderNameStart(b);
    if a.Some? && b.Some? {
      assert FolderName(a)[6..] == Decimal(a.value);
      assert FolderName(b)[6..] == Decimal(b.value);
      DecimalRoundTrip(a.value);
      DecimalRoundTrip(b.value);
    }
  }

  // ---------------------------------------------------------------------
  // The shard-add gate
  // ---------------------------------------------------------------------

  /** The fields of a `ProposalAdded` event, in payload order. */
  const ProposalAddedOrder: seq<string> :=
    ["proposalID", "recipient", "amount", "description", "argument", "argument2", "curator", "state"]

  /** The declared type of every `ProposalAdded` field. */
  const ProposalAddedFields: map<string, string> :=
    map["proposalID" := "uint", "recipient" := "address", "amount" := "uint", "description" := "string",
        "argument" := "string", "argument2" := "uint", "curator" := "address", "state" := "uint"]

  /**
   * The event's eight fields are all declared and named once each, so every
   * field has its own slot; the three the branch reads are `proposalID` and
   * `state`, both `uint`, and `argument`, a `string`.
   */
  lemma {:induction false} ProposalAddedTable()
    ensures |ProposalAddedOrder| == 8
    ensures forall k :: 0 <= k < 8 ==> ProposalAddedOrder[k] in ProposalAddedFields
    ensures forall k :: 0 <= k < 8 ==> LastOccurrence(ProposalAddedOrder, k)
    ensures LastOccurrence(ProposalAddedOrder, 0) && ProposalAddedFields[ProposalAddedOrder[0]] == "uint"
    ensures LastOccurrence(ProposalAddedOrder, 4) && ProposalAddedFields[ProposalAddedOrder[4]] == "string"
    ensures LastOccurrence(ProposalAddedOrder, 7) && ProposalAddedFields[ProposalAddedOrder[7]] == "uint"
  {
  }

  /** What the branch takes from a shard-add proposal: its id, and the storage-network hash of the proposed shard. */
  datatype ShardAddProposal = ShardAddProposal(proposalId: nat, newShardHash: seq<Byte>)

  /**
   * A `ProposalAdded` payload the branch reads without panicking: both string
   * fields can be located, the `state` slot (the eighth) is there, and when the
   * branch is taken, the bytes of `argument` are there too.
   */
  predicate ProposalAddedReadable(data: seq<Byte>)
  {
    && Decodable(data, ProposalAddedFields, ProposalAddedOrder)
    && 256 <= |data|
    && StringSlotReadable(data, 128)
    && (LowWord(data, 224) == 2 ==> GetStringOffsets(data, 128).end <= |data|)
  }

  /**
   * The gate of the branch: a `ProposalAdded` event is a shard-add proposal
   * exactly when its `state` field is 2; the proposal is then identified by
   * its `proposalID` field, and the proposed shard's hash is the `argument`
   * field.
   */
  method ShardAddRequest(data: seq<Byte>) returns (proposal: Option<ShardAddProposal>)
    requires ProposalAddedReadable(data)
    ensures proposal.Some? <==> LowWord(data, 224) == 2
    ensures proposal.Some? ==>
      proposal.value == ShardAddProposal(LowWord(data, 0), data[LowWord(data, 128) + 32..GetStringOffsets(data, 128).end])
  {
    ProposalAddedTable();
    var propaddedDeserializer := new LogdataDeserializer(data, ProposalAddedFields, ProposalAddedOrder);
    GetU64At(propaddedDeserializer, 7);
    var state := propaddedDeserializer.GetU64("state");
    if state == 2 {
      GetU64At(propaddedDeserializer, 0);
      GetStrAt(propaddedDeserializer, 4);
      var propId := propaddedDeserializer.GetU64("proposalID");
      var newShardIpfsHash := propaddedDeserializer.GetStr("argument");
      proposal := Some(ShardAddProposal(propId, newShardIpfsHash));
    } else {
      proposal := None;
    }
  }

  /** The `state`, `proposalID` and `argument` the gate reads are those of `vs`, the numbers modulo 2^64. */
  predicate ReadsBack(vs: seq<AbiValue>, data: seq<Byte>)
  {
    && |vs| == 8 && vs[0].UintValue? && vs[4].StringValue? && vs[7].UintValue?
    && 256 <= |data| && StringSlotReadable(data, 128) && GetStringOffsets(data, 128).end <= |data|
    && LowWord(data, 224) == vs[7].n % U64Modulus
    && LowWord(data, 0) == vs[0].n % U64Modulus
    && data[LowWord(data, 128) + 32..GetStringOffsets(data, 128).end] == vs[4].bytes
  }

  /**
   * On the encoding of a `ProposalAdded` tuple the gate reads what was
   * encoded: the payload is readable, the gate opens exactly when `state` is 2
   * modulo 2^64, and the proposal carries `proposalID` modulo 2^64 and the
   * bytes of `argument`.
   */
  lemma {:induction false} ProposalAddedEncoding(vs: seq<AbiValue>, data: seq<Byte>)
    requires Encodable(vs) && Layout(vs, data) && Describes(ProposalAddedFields, ProposalAddedOrder, vs)
    ensures ProposalAddedReadable(data) && ReadsBack(vs, data)
  {
    ProposalAddedTable();
    EncodingDecodable(vs, data, ProposalAddedFields, ProposalAddedOrder);
    assert TypeName(vs[0]) == "uint" && TypeName(vs[4]) == "string" && TypeName(vs[7]) == "uint";
    assert vs[0].UintValue? && vs[4].StringValue? && vs[7].UintValue?;
    assert HeadPlaced(vs, data, 0) && HeadPlaced(vs, data, 4) && HeadPlaced(vs, data, 7) && TailPlaced(vs, data, 4);
    SlotsReadBack(vs, data);
  }

  lemma {:induction false} SlotsReadBack(vs: seq<AbiValue>, data: seq<Byte>)
    requires Encodable(vs) && |data| == EncodedSize(vs)
    requires |vs| == 8 && vs[0].UintValue? && vs[4].StringValue? && vs[7].UintValue?
    requires HeadPlaced(vs, data, 0) && HeadPlaced(vs, data, 4) && HeadPlaced(vs, data, 7) && TailPlaced(vs, data, 4)
    ensures ReadsBack(vs, data)
  {
    UintSlot(vs, data, 0);
    UintSlot(vs, data, 7);
    StringSlot(vs, data, 4);
    var span := GetStringOffsets(data, 128);
    assert LowWord(data, 128) + 32 == span.start == TailStart(vs, 4) + 32;
  }

  // ---------------------------------------------------------------------
  // Which on-chain shards are fetched
  // ---------------------------------------------------------------------

  /** The folders created for the shards `qs`. */
  function ShardFolders(qs: seq<nat>): set<string>
  {
    if qs == [] then {} else ShardFolders(qs[..|qs| - 1]) + {FolderName(Some(qs[|qs| - 1]))}
  }

  /** A shard's folder is among the folders created for `qs` exactly when the shard is in `qs`. */
  lemma {:induction false} ShardFoldersMembership(qs: seq<nat>, x: nat)
    ensures FolderName(Some(x)) in ShardFolders(qs) <==> x in qs
  {
    if qs != [] {
      var init, last := qs[..|qs| - 1], qs[|qs| - 1];
      assert qs == init + [last];
      ShardFoldersMembership(init, x);
      if FolderName(Some(x)) == FolderName(Some(last)) {
        FolderNameInjective(Some(x), Some(last));
      }
    }
  }

  predicate StrictlyIncreasing(qs: seq<nat>)
  {
    forall i, j :: 0 <= i < j < |qs| ==> qs[i] < qs[j]
  }

  /**
   * The loop over the contract's shard array: every shard `i` below
   * `shardCount` whose folder does not exist yet gets its folder created and
   * its record queried. `folders` are the folders that exist beforehand.
   */
  method QueryMissingShards(shardCount: nat, folders: set<string>) returns (queried: seq<nat>, folders': set<string>)
    ensures StrictlyIncreasing(queried)
    ensures forall i: nat :: i in queried <==> i < shardCount && FolderName(Some(i)) !in folders
    ensures folders' == folders + ShardFolders(queried)
  {
    queried, folders' := [], folders;
    for i := 0 to shardCount
      invariant QueriedBelow(queried, folders, i)
      invariant folders' == folders + ShardFolders(queried)
    {
      var shardLocalFolder := FolderName(Some(i));
      QueryStep(queried, folders, i);
      if shardLocalFolder !in folders' {
        folders' := folders' + {shardLocalFolder};
        queried := queried + [i];
      }
    }
  }

  /** `queried` are, in increasing order, the shards below `i` whose folders are not among `folders`. */
  ghost predicate QueriedBelow(queried: seq<nat>, folders: set<string>, i: nat)
  {
    && StrictlyIncreasing(queried)
    && (forall q :: q in queried ==> q < i)
    && (forall q: nat :: q in queried <==> q < i && FolderName(Some(q)) !in folders)
  }

  /** One iteration of the shard loop: shard `i`'s folder exists exactly when it existed beforehand, and the loop invariant moves on. */
  lemma {:induction false} QueryStep(queried: seq<nat>, folders: set<string>, i: nat)
    requires QueriedBelow(queried, folders, i)
    ensures FolderName(Some(i)) in folders + ShardFolders(queried) <==> FolderName(Some(i)) in folders
    ensures FolderName(Some(i)) in folders ==> QueriedBelow(queried, folders, i + 1)
    ensures FolderName(Some(i)) !in folders ==>
      && QueriedBelow(queried + [i], folders, i + 1)
      && ShardFolders(queried + [i]) == ShardFolders(queried) + {FolderName(Some(i))}
  {
    ShardFoldersMembership(queried, i);
    if FolderName(Some(i)) in folders {
      SkipShard(queried, folders, i);
    } else {
      QueryShard(queried, folders, i);
    }
  }

  lemma {:induction false} SkipShard(queried: seq<nat>, folders: set<string>, i: nat)
    requires QueriedBelow(queried, folders, i) && FolderName(Some(i)) in folders
    ensures QueriedBelow(queried, folders, i + 1)
  {
    forall q: nat
      ensures q in queried <==> q < i + 1 && FolderName(Some(q)) !in folders
    {
      if q == i {
        assert q !in queried;
      }
    }
  }

  lemma {:induction false} QueryShard(queried: seq<nat>, folders: set<string>, i: nat)
    requires QueriedBelow(queried, folders, i) && FolderName(Some(i)) !in folders
    ensures QueriedBelow(queried + [i], folders, i + 1)
    ensures ShardFolders(queried + [i]) == ShardFolders(queried) + {FolderName(Some(i))}
  {
    var queried' := queried + [i];
    assert queried'[..|queried'| - 1] == queried;
    forall q: nat
      ensures q in queried' <==> q < i + 1 && FolderName(Some(q)) !in folders
    {
      assert q in queried' <==> q in queried || q == i;
    }
    forall a, b | 0 <= a < b < |queried'|
      ensures queried'[a] < queried'[b]
    {
      assert queried'[a] == queried[a] && queried[a] in queried;
    }
  }

  // ---------------------------------------------------------------------
  // Which shards are listed
  // ---------------------------------------------------------------------

  /** The parts of a `shards(i)` record the branch uses: the shard owner's address and the shard's storage-network hash. */
  datatype ShardRecord = ShardRecord(owner: Address, ipfsHash: string)

  /** A directory-listing request: the storage-network path to list, and the shard its results are labelled with. */
  datatype ListRequest = ListRequest(path: string, shard: ShardId)

  function IpfsPath(hash: string): string
  {
    "/ipfs/" + hash
  }

  /** A shard record with the zero address as owner is an empty array slot and is skipped. */
  predicate ValidShard(record: ShardRecord): (valid: bool)
    ensures valid <==> exists i :: 0 <= i < 20 && record.owner[i] != 0
  {
    NonZeroAddress(record.owner);
    record.owner != ZeroAddress
  }

  /** An address is not the zero address exactly when one of its bytes is not zero. */
  lemma {:induction false} NonZeroAddress(a: Address)
    ensures a != ZeroAddress <==> exists i :: 0 <= i < 20 && a[i] != 0
  {
    if forall i :: 0 <= i < 20 ==> a[i] == 0 {
      assert a == ZeroAddress;
    }
  }

  /** The requests for the valid records among `shards`, in order, the `j`-th record's labelled `Some(ids[j])`. */
  function ValidListing(shards: seq<ShardRecord>, ids: seq<nat>): (requests: seq<ListRequest>)
    requires |ids| == |shards|
    ensures |requests| <= |shards|
  {
    if shards == [] then []
    else
      var n := |shards| - 1;
      ValidListing(shards[..n], ids[..n]) + ListingOf(shards[n], ids[n])
  }

  function ListingOf(record: ShardRecord, id: nat): seq<ListRequest>
  {
    if ValidShard(record) then [ListRequest(IpfsPath(record.ipfsHash), Some(id))] else []
  }

  lemma {:induction false} ValidListingSnoc(shards: seq<ShardRecord>, ids: seq<nat>, n: nat)
    requires |ids| == |shards| && n < |shards|
    ensures ValidListing(shards[..n + 1], ids[..n + 1]) == ValidListing(shards[..n], ids[..n]) + ListingOf(shards[n], ids[n])
  {
    assert shards[..n + 1][..n] == shards[..n];
    assert ids[..n + 1][..n] == ids[..n];
  }

  /** Every valid record is listed, labelled with its id... */
  lemma {:induction false} ValidShardListed(shards: seq<ShardRecord>, ids: seq<nat>, j: nat)
    requires |ids| == |shards| && j < |shards| && ValidShard(shards[j])
    ensures ListRequest(IpfsPath(shards[j].ipfsHash), Some(ids[j])) in ValidListing(shards, ids)
  {
    var n := |shards| - 1;
    if j < n {
      ValidShardListed(shards[..n], ids[..n], j);
    }
  }

  /** ...and every request lists a valid record under that record's id. */
  lemma {:induction false} ListedShardValid(shards: seq<ShardRecord>, ids: seq<nat>, t: nat)
    requires |ids| == |shards| && t < |ValidListing(shards, ids)|
    ensures exists j :: 0 <= j < |shards| && ValidShard(shards[j])
              && ValidListing(shards, ids)[t] == ListRequest(IpfsPath(shards[j].ipfsHash), Some(ids[j]))
  {
    var n := |shards| - 1;
    var init := ValidListing(shards[..n], ids[..n]);
    if t < |init| {
      ListedShardValid(shards[..n], ids[..n], t);
      var j :| 0 <= j < n && ValidShard(shards[..n][j])
                && init[t] == ListRequest(IpfsPath(shards[..n][j].ipfsHash), Some(ids[..n][j]));
      assert shards[..n][j] == shards[j] && ids[..n][j] == ids[j];
    } else {
      assert ValidListing(shards, ids)[t] == ListingOf(shards[n], ids[n])[0];
    }
  }

  /** Distinct ids label distinct requests. */
  lemma {:induction false} ValidListingDistinct(shards: seq<ShardRecord>, ids: seq<nat>)
    requires |ids| == |shards|
    requires forall i, j :: 0 <= i < j < |ids| ==> ids[i] != ids[j]
    ensures forall s, t :: 0 <= s < t < |ValidListing(shards, ids)| ==>
              ValidListing(shards, ids)[s].shard != ValidListing(shards, ids)[t].shard
    ensures forall t :: 0 <= t < |ValidListing(shards, ids)| ==> ValidListing(shards, ids)[t].shard.Some?
  {
    var rs := ValidListing(shards, ids);
    forall t | 0 <= t < |rs|
      ensures rs[t].shard.Some?
    {
      ListedShardValid(shards, ids, t);
    }
    forall s, t | 0 <= s < t < |rs|
      ensures rs[s].shard != rs[t].shard
    {
      ListedOrder(shards, ids, s, t);
    }
  }

  /** Requests come in the order of their records. */
  lemma {:induction false} ListedOrder(shards: seq<ShardRecord>, ids: seq<nat>, s: nat, t: nat)
    requires |ids| == |shards| && s < t < |ValidListing(shards, ids)|
    ensures exists i, j :: 0 <= i < j < |shards|
              && ValidListing(shards, ids)[s].shard == Some(ids[i]) && ValidListing(shards, ids)[t].shard == Some(ids[j])
  {
    var n := |shards| - 1;
    var init := ValidListing(shards[..n], ids[..n]);
    assert ValidListing(shards, ids)[s] == init[s];
    if t < |init| {
      ListedOrder(shards[..n], ids[..n], s, t);
      var i, j :| 0 <= i < j < n && init[s].shard == Some(ids[..n][i]) && init[t].shard == Some(ids[..n][j]);
      assert ids[..n][i] == ids[i] && ids[..n][j] == ids[j];
    } else {
      ListedShardValid(shards[..n], ids[..n], s);
      var i :| 0 <= i < n && init[s] == ListRequest(IpfsPath(shards[..n][i].ipfsHash), Some(ids[..n][i]));
      assert ids[..n][i] == ids[i];
      assert ValidListing(shards, ids)[t] == ListingOf(shards[n], ids[n])[0];
    }
  }

  /** The shard ids `0..n`, as `enumerate` counts them. */
  function Enumeration(n: nat): (ids: seq<nat>)
    ensures |ids| == n && forall i :: 0 <= i < n ==> ids[i] == i
  {
    seq(n, i => i)
  }

  /**
   * The listing loop as the branch has it: the `j`-th fetched record, if
   * valid, is listed under the shard id `Some(j)` (its position among the
   * fetched records), and the proposed shard's hash is listed last under
   * `None`.
   */
  method ListShardsAsWritten(shards: seq<ShardRecord>, newShardHash: string) returns (requests: seq<ListRequest>)
    ensures requests == ValidListing(shards, Enumeration(|shards|)) + [ListRequest(IpfsPath(newShardHash), None)]
  {
    var shardsValid := seq(|shards|, i requires 0 <= i < |shards| => ValidShard(shards[i]));
    var ids := Enumeration(|shards|);
    requests := [];
    for id := 0 to |shards|
      invariant requests == ValidListing(shards[..id], ids[..id])
    {
      ValidListingSnoc(shards, ids, id);
      if shardsValid[id] {
        requests := requests + [ListRequest(IpfsPath(shards[id].ipfsHash), Some(id))];
      }
    }
    assert shards[..|shards|] == shards && ids[..|shards|] == ids;
    requests := requests + [ListRequest(IpfsPath(newShardHash), None)];
  }

  /**
   * The listing loop with each record labelled by the contract shard it was
   * fetched for: `queried[j]` is the index the `j`-th record was queried
   * with.
   */
  method ListShards(queried: seq<nat>, shards: seq<ShardRecord>, newShardHash: string) returns (requests: seq<ListRequest>)
    requires |queried| == |shards|
    ensures requests == ValidListing(shards, queried) + [ListRequest(IpfsPath(newShardHash), None)]
  {
    var shardsValid := seq(|shards|, i requires 0 <= i < |shards| => ValidShard(shards[i]));
    requests := [];
    for j := 0 to |shards|
      invariant requests == ValidListing(shards[..j], queried[..j])
    {
      ValidListingSnoc(shards, queried, j);
      if shardsValid[j] {
        requests := requests + [ListRequest(IpfsPath(shards[j].ipfsHash), Some(queried[j]))];
      }
    }
    assert shards[..|shards|] == shards && queried[..|shards|] == queried;
    requests := requests + [ListRequest(IpfsPath(newShardHash), None)];
  }

  /**
   * With `shard_0` already on disk and two shards on chain, only shard 1 is
   * fetched; the loop as written lists its record as shard 0, so its files
   * would go to `shard_0` and be attributed to shard 0. Labelled with the
   * queried index, it is shard 1.
   */
  method MislabelledShardExample(owner: Address, hash: string) returns (asWritten: ShardId, corrected: ShardId)
    requires owner != ZeroAddress
    ensures asWritten == Some(0) && corrected == Some(1)
  {
    var queried, folders := QueryMissingShards(2, {FolderName(Some(0))});
    ShardFoldersMembership([], 1);
    assert FolderName(Some(1)) != FolderName(Some(0)) by {
      FolderNameStart(Some(1));
      if FolderName(Some(1)) == FolderName(Some(0)) {
        FolderNameInjective(Some(1), Some(0));
      }
    }
    assert 1 in queried && 0 !in queried;
    assert queried == [1] by {
      forall q | q in queried
        ensures q == 1
      {
        assert q < 2;
      }
    }
    var records := [ShardRecord(owner, hash)];
    var byPosition := ListShardsAsWritten(records, "proposed");
    var byIndex := ListShards(queried, records, "proposed");
    assert records[..0] == [];
    asWritten := byPosition[0].shard;
    corrected := byIndex[0].shard;
  }

  /** With the queried indices as labels, no two requests share a shard, the proposed shard's included. */
  lemma {:induction false} ListShardsDistinct(queried: seq<nat>, shards: seq<ShardRecord>, newShardHash: string)
    requires |queried| == |shards| && StrictlyIncreasing(queried)
    ensures var requests := ValidListing(shards, queried) + [ListRequest(IpfsPath(newShardHash), None)];
      forall s, t :: 0 <= s < t < |requests| ==> requests[s].shard != requests[t].shard
  {
    ValidListingDistinct(shards, queried);
  }

  // ---------------------------------------------------------------------
  // Which files are downloaded, and where to
  // ---------------------------------------------------------------------

  /** An entry of a directory listing: a file's name and its storage-network hash. */
  datatype Link = Link(name: string, hash: string)

  /** The answer to a listing request: the links of the listed directory, with the request's shard label. */
  datatype Listed = Listed(links: seq<Link>, shard: ShardId)

  /** A file to fetch: its hash, the folder and name it is written under, and the shard it is attributed to. */
  datatype Download = Download(hash: string, folder: string, name: string, shard: ShardId)

  /** The listings, in request order, each carrying the label its request was issued with. */
  function Listings(requests: seq<ListRequest>, links: seq<seq<Link>>): (ls: seq<Listed>)
    requires |links| == |requests|
    ensures |ls| == |requests|
    ensures forall i :: 0 <= i < |ls| ==> ls[i] == Listed(links[i], requests[i].shard)
  {
    seq(|requests|, i requires 0 <= i < |requests| => Listed(links[i], requests[i].shard))
  }

  /** The downloads of one listing: one per link, into the listing's shard folder. */
  function ListedDownloads(l: Listed): (ds: seq<Download>)
    ensures |ds| == |l.links|
    ensures forall i :: 0 <= i < |ds| ==> ds[i] == Download(l.links[i].hash, FolderName(l.shard), l.links[i].name, l.shard)
  {
    seq(|l.links|, i requires 0 <= i < |l.links| => Download(l.links[i].hash, FolderName(l.shard), l.links[i].name, l.shard))
  }

  /** The downloads of all listings, listing by listing. */
  function Downloads(ls: seq<Listed>): seq<Download>
  {
    if ls == [] then [] else Downloads(ls[..|ls| - 1]) + ListedDownloads(ls[|ls| - 1])
  }

  lemma {:induction false} DownloadsSnoc(ls: seq<Listed>, n: nat)
    requires n < |ls|
    ensures Downloads(ls[..n + 1]) == Downloads(ls[..n]) + ListedDownloads(ls[n])
  {
    assert ls[..n + 1][..n] == ls[..n];
  }

  /** The loop over the listings: the folder is chosen once per listing, then every link of it is queued. */
  method CollectDownloads(ls: seq<Listed>) returns (downloads: seq<Download>)
    ensures downloads == Downloads(ls)
  {
    downloads := [];
    for j := 0 to |ls|
      invariant downloads == Downloads(ls[..j])
    {
      DownloadsSnoc(ls, j);
      var shardLocalFolder := FolderName(ls[j].shard);
      var links := ls[j].links;
      ghost var before := downloads;
      for i := 0 to |links|
        invariant downloads == before + ListedDownloads(Listed(links[..i], ls[j].shard))
      {
        downloads := downloads + [Download(links[i].hash, shardLocalFolder, links[i].name, ls[j].shard)];
      }
      assert links[..|links|] == links;
    }
    assert ls[..|ls|] == ls;
  }

  /** Every file goes to the folder of the shard it is attributed to, and that shard is one of the listings'. */
  lemma {:induction false} DownloadOrigin(ls: seq<Listed>, t: nat)
    requires t < |Downloads(ls)|
    ensures Downloads(ls)[t].folder == FolderName(Downloads(ls)[t].shard)
    ensures exists j :: 0 <= j < |ls| && ls[j].shard == Downloads(ls)[t].shard
  {
    var n := |ls| - 1;
    var init := Downloads(ls[..n]);
    if t < |init| {
      DownloadOrigin(ls[..n], t);
      var j :| 0 <= j < n && ls[..n][j].shard == init[t].shard;
      assert ls[j] == ls[..n][j];
    } else {
      assert Downloads(ls)[t] == ListedDownloads(ls[n])[t - |init|];
    }
  }

  /** All files of one shard come one after another. */
  predicate Grouped(ds: seq<Download>)
  {
    forall i, j, k :: 0 <= i < j < k < |ds| && ds[i].shard == ds[k].shard ==> ds[j].shard == ds[i].shard
  }

  lemma {:induction false} GroupedAppend(ds: seq<Download>, block: seq<Download>, shard: ShardId)
    requires Grouped(ds)
    requires forall t :: 0 <= t < |ds| ==> ds[t].shard != shard
    requires forall t :: 0 <= t < |block| ==> block[t].shard == shard
    ensures Grouped(ds + block)
  {
    var all := ds + block;
    forall i, j, k | 0 <= i < j < k < |all| && all[i].shard == all[k].shard
      ensures all[j].shard == all[i].shard
    {
      if k < |ds| {
        assert all[i] == ds[i] && all[j] == ds[j] && all[k] == ds[k];
      } else if |ds| <= i {
        assert all[i] == block[i - |ds|] && all[j] == block[j - |ds|];
      }
    }
  }

  /** When no two listings carry the same shard, each shard's files are downloaded as one stretch. */
  lemma {:induction false} DownloadsGrouped(ls: seq<Listed>)
    requires forall s, t :: 0 <= s < t < |ls| ==> ls[s].shard != ls[t].shard
    ensures Grouped(Downloads(ls))
  {
    if ls != [] {
      var n := |ls| - 1;
      var init := Downloads(ls[..n]);
      DownloadsGrouped(ls[..n]);
      forall t | 0 <= t < |init|
        ensures init[t].shard != ls[n].shard
      {
        DownloadOrigin(ls[..n], t);
      }
      GroupedAppend(init, ListedDownloads(ls[n]), ls[n].shard);
    }
  }

  /**
   * The CSV files as the loader reads them: the `i`-th file downloaded, in
   * download order, carrying the download's shard label.
   */
  predicate ReadAsDownloaded<C>(files: seq<DataLoader.CsvFile<C>>, downloads: seq<Download>)
  {
    |files| == |downloads| && forall i :: 0 <= i < |files| ==> files[i].shard == downloads[i].shard
  }

  /**
   * The whole pipeline with queried-index labels: every shard's range in the
   * loader's attribution map holds exactly the samples read from that shard's
   * files.
   */
  lemma {:induction false} DownloadedSamplesAttributed<C>(queried: seq<nat>, shards: seq<ShardRecord>, newShardHash: string,
                                                           links: seq<seq<Link>>, files: seq<DataLoader.CsvFile<C>>)
    requires |queried| == |shards| && StrictlyIncreasing(queried)
    requires |links| == |ValidListing(shards, queried)| + 1
    requires ReadAsDownloaded(files, Downloads(Listings(ValidListing(shards, queried) + [ListRequest(IpfsPath(newShardHash), None)], links)))
    ensures var es := DataLoader.CsvEntries(files);
      DataLoader.AttributesExactly(DataLoader.Attributions(DataLoader.Runs(es)), es)
  {
    var requests := ValidListing(shards, queried) + [ListRequest(IpfsPath(newShardHash), None)];
    ListShardsDistinct(queried, shards, newShardHash);
    var ls := Listings(requests, links);
    DownloadsGrouped(ls);
    var ds := Downloads(ls);
    var es := DataLoader.CsvEntries(files);
    assert DataLoader.ContiguousShards(es) by {
      forall i, j, k | 0 <= i < j < k < |es| && es[i].shard == es[k].shard
        ensures es[j].shard == es[i].shard
      {
        assert es[i].shard == ds[i].shard && es[j].shard == ds[j].shard && es[k].shard == ds[k].shard;
      }
    }
    DataLoader.AttributionsExact(es);
  }
}
