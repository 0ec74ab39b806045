/** The directory of lifecycle records: canonical and legacy file names, and what reading and writing them keeps apart. */
module CapabilityStore {
  import opened Common
  import opened Text
  import opened Order
  import opened CapabilityLifecycle
  import opened CapabilityDependencies

  // ---- File names ----

  /** The first twenty hexadecimal digits of SHA-256, as a function value. */
  type Hash = string -> string

  predicate HexDigit(c: char) {
    '0' <= c <= '9' || 'a' <= c <= 'f'
  }

  ghost predicate DigestPrefix(h: Hash) {
    forall s: string :: |h(s)| == 20 && forall i :: 0 <= i < |h(s)| ==> HexDigit(h(s)[i])
  }

  predicate Plain(c: char) {
    AlphaNumeric(c) || c == '-' || c == '_'
  }

  function SafeName(raw: string): (safe: string)
    ensures |safe| == |raw|
    ensures forall i :: 0 <= i < |raw| ==> safe[i] == if Plain(raw[i]) then raw[i] else '_'
  {
    if raw == "" then "" else [if Plain(raw[0]) then raw[0] else '_'] + SafeName(raw[1..])
  }

  function TrimUnderscores(s: string): string {
    if s != "" && s[|s| - 1] == '_' then TrimUnderscores(s[..|s| - 1]) else s
  }

  /** The id is its own safe name, so its file carries it unchanged. */
  predicate IsPlain(id: string) {
    SafeName(id) == id
  }

  function Stem(id: string): string {
    var safe := SafeName(id);
    var stem := TrimUnderscores(if |safe| > 150 then safe[..150] else safe);
    if stem == "" then "contract" else stem
  }

  /** The name of an id with an unsafe character: its readable stem and its digest. */
  function Digested(h: Hash, id: string): string {
    Stem(id) + "-" + h(id)
  }

  /** `_safe_contract_filename`; None where it raises. */
  function Canonical(h: Hash, id: string): Option<string> {
    if SafeName(id) == "" then None
    else if IsPlain(id) then if |id| > 180 then None else Some(id + ".json")
    else Some(Digested(h, id) + ".json")
  }

  /** `_legacy_contract_filename`; None where it raises. */
  function Legacy(id: string): Option<string> {
    var safe := SafeName(id);
    if safe == "" || |safe| > 180 then None else Some(safe + ".json")
  }

  lemma {:induction false} TrimExactly(s: string) returns (n: nat)
    ensures n <= |s| && TrimUnderscores(s) == s[..n] && (n > 0 ==> s[n - 1] != '_') && forall k :: n <= k < |s| ==> s[k] == '_'
    decreases |s|
  {
    if s != "" && s[|s| - 1] == '_' {
      n := TrimExactly(s[..|s| - 1]);
      assert s[..|s| - 1][..n] == s[..n];
    } else {
      n := |s|;
      assert s[..n] == s;
    }
  }

  /**
   Every file name: a plain id keeps its text; any other id gives its first 150 characters with unsafe
   ones replaced and trailing underscores dropped, "contract" when nothing is left, and its digest.
   Only the empty id and a plain or legacy name of more than 180 characters have none.
   */
  lemma {:induction false} NamesExactly(h: Hash, id: string) returns (n: nat)
    ensures n <= |id| && n <= 150
    ensures IsPlain(id) <==> forall i :: 0 <= i < |id| ==> AlphaNumeric(id[i]) || id[i] in "-_"
    ensures Canonical(h, id) == if id == "" || (IsPlain(id) && |id| > 180) then None
                                else if IsPlain(id) then Some(id + ".json")
                                else Some((if n == 0 then "contract" else SafeName(id)[..n]) + "-" + h(id) + ".json")
    ensures n > 0 ==> SafeName(id)[n - 1] != '_'
    ensures forall k :: n <= k < |id| && k < 150 ==> SafeName(id)[k] == '_'
    ensures Legacy(id) == if 1 <= |id| <= 180 then Some(SafeName(id) + ".json") else None
  {
    var safe := SafeName(id);
    var head := if |safe| > 150 then safe[..150] else safe;
    n := TrimExactly(head);
    assert head[..n] == safe[..n];
    assert forall k :: 0 <= k < |head| ==> head[k] == safe[k];
    assert safe == id <==> forall i :: 0 <= i < |id| ==> safe[i] == id[i];
  }

  /** `a` is a plain id that reads like the digested name of `b`. */
  predicate Spells(h: Hash, a: string, b: string) {
    IsPlain(a) && !IsPlain(b) && a == Digested(h, b)
  }

  lemma {:induction false} SameSuffix(a: string, b: string, suffix: string)
    ensures a + suffix == b + suffix <==> a == b
  {
    if a + suffix == b + suffix {
      assert |a| == |b| && a == (a + suffix)[..|a|] && b == (b + suffix)[..|b|];
    }
  }

  lemma {:induction false} SameDigest(h: Hash, a: string, b: string)
    requires DigestPrefix(h) && Digested(h, a) == Digested(h, b)
    ensures h(a) == h(b)
  {
    assert h(a) == Digested(h, a)[|Digested(h, a)| - 20..];
    assert h(b) == Digested(h, b)[|Digested(h, b)| - 20..];
  }

  /** Two ids with different digest prefixes share a file if and only if one spells the digested name of the other. */
  lemma {:induction false} SharedNameExactly(h: Hash, a: string, b: string)
    requires DigestPrefix(h) && a != b && h(a) != h(b)
    requires Canonical(h, a).Some? && Canonical(h, b).Some?
    ensures Canonical(h, a) == Canonical(h, b) <==> Spells(h, a, b) || Spells(h, b, a)
  {
    hide Digested, IsPlain, DigestPrefix;
    SameSuffix(if IsPlain(a) then a else Digested(h, a), if IsPlain(b) then b else Digested(h, b), ".json");
    if !IsPlain(a) && !IsPlain(b) && Digested(h, a) == Digested(h, b) {
      SameDigest(h, a, b);
    }
  }

  lemma {:induction false} TrimKeepsFirst(s: string)
    requires s != "" && s[0] != '_'
    ensures TrimUnderscores(s) != "" && TrimUnderscores(s) <= s
    decreases |s|
  {
    if s[|s| - 1] == '_' { TrimKeepsFirst(s[..|s| - 1]); }
  }

  lemma {:induction false} PlainIsSafeTail(s: string)
    requires forall i :: 0 <= i < |s| ==> Plain(s[i])
    ensures SafeTail(s)
  {
    if s != "" { PlainIsSafeTail(s[1..]); }
  }

  /**
   The collision needs no digest collision: for every legal id with an unsafe character there is
   another legal id, computed from it, that has the same file name and can be stored.
   */
  lemma {:induction false} DigestedNameIsLegalId(h: Hash, id: string)
    requires DigestPrefix(h) && SafeText(id) == Some(id) && !IsPlain(id)
    ensures var twin := Digested(h, id);
            && twin != id && SafeText(twin) == Some(twin) && |twin| <= 180 && Spells(h, twin, id)
            && Canonical(h, twin) == Canonical(h, id)
  {
    var safe, twin := SafeName(id), Digested(h, id);
    StripTrims(id);
    assert safe[0] == id[0];
    TrimKeepsFirst(if |safe| > 150 then safe[..150] else safe);
    forall i | 0 <= i < |twin|
      ensures Plain(twin[i])
    {}
    assert SafeName(twin) == twin;
    PlainIsSafeTail(twin);
    StripTrims(twin);
  }

  // ---- One directory ----

  type Directory = map<string, Record>

  /** `_write_path` */
  function WritePath(h: Hash, files: Directory, id: string): Option<string> {
    match (Canonical(h, id), Legacy(id))
    case (Some(canonical), Some(legacy)) =>
      if canonical == legacy || canonical in files || legacy !in files then Some(canonical)
      else if files[legacy].body.contract == id then Some(legacy)
      else Some(canonical)
    case _ => None
  }

  /** `put`; None where it raises. */
  function Put(h: Hash, files: Directory, r: Record): Option<Directory> {
    if !Valid(r) then None
    else
      match WritePath(h, files, r.body.contract)
      case None => None
      case Some(path) => Some(files[path := r])
  }

  datatype Lookup = Found(record: Record) | Missing | Refused

  /** `get`, reading the canonical file or else the legacy one. */
  function Fetch(h: Hash, files: Directory, id: string): Lookup {
    match Canonical(h, id)
    case None => Refused
    case Some(canonical) =>
      if canonical in files then Checked(files[canonical], id)
      else
        match Legacy(id)
        case None => Refused
        case Some(legacy) => if legacy in files then Checked(files[legacy], id) else Missing
  }

  function Checked(r: Record, id: string): Lookup {
    if r.body.contract != id || !Valid(r) then Refused else Found(r)
  }

  /**
   Where a record goes in any directory: to the legacy file that holds this contract while there is no
   canonical one, and to the canonical file otherwise.
   */
  lemma {:induction false} PutGoesExactly(h: Hash, files: Directory, r: Record)
    ensures Put(h, files, r).Some? <==> Valid(r) && 1 <= |r.body.contract| <= 180
    ensures Put(h, files, r).Some? ==>
              var canonical, legacy := Canonical(h, r.body.contract).value, Legacy(r.body.contract).value;
              Put(h, files, r).value ==
              files[(if canonical !in files && legacy in files && files[legacy].body.contract == r.body.contract then legacy else canonical) := r]
  {
    hide Stem;
  }

  /** What `get` answers in any directory: the sealed record of this contract in its canonical file, or else in its legacy one. */
  lemma {:induction false} FetchExactly(h: Hash, files: Directory, id: string)
    ensures forall r :: Fetch(h, files, id) == Found(r) <==>
              && r.body.contract == id && Valid(r) && Canonical(h, id).Some?
              && if Canonical(h, id).value in files then files[Canonical(h, id).value] == r
                 else Legacy(id).Some? && Legacy(id).value in files && files[Legacy(id).value] == r
    ensures Fetch(h, files, id) == Missing <==>
            Canonical(h, id).Some? && Canonical(h, id).value !in files && Legacy(id).Some? && Legacy(id).value !in files
  {
    hide Canonical, Legacy;
  }

  /** Storing is read back, whatever files are there. */
  lemma {:induction false} PutIsReadBack(h: Hash, files: Directory, r: Record)
    requires Put(h, files, r).Some?
    ensures Fetch(h, Put(h, files, r).value, r.body.contract) == Found(r)
  {
    hide Canonical, Legacy;
  }

  /**
   In any directory, with files under canonical or legacy names or misplaced: storing a record of
   one contract changes what `get` returns for another if and only if the two share a canonical
   name and that is where the record goes, or the other has no canonical file and its legacy file
   is where the record goes. A lookup that was refused stays refused.
   */
  lemma {:induction false} PutDisturbsExactly(h: Hash, files: Directory, r: Record, other: string)
    requires Put(h, files, r).Some? && other != r.body.contract
    ensures Fetch(h, files, other).Refused? ==> Fetch(h, Put(h, files, r).value, other).Refused?
    ensures Fetch(h, files, other).Found? ==>
              (Fetch(h, Put(h, files, r).value, other) != Fetch(h, files, other) <==>
               var path := WritePath(h, files, r.body.contract);
               || Canonical(h, other) == Canonical(h, r.body.contract) == path
               || (Canonical(h, other).value !in files && Legacy(other) == path))
    ensures Fetch(h, files, other).Missing? ==>
              (Fetch(h, Put(h, files, r).value, other) != Missing <==>
               WritePath(h, files, r.body.contract) == Canonical(h, other) || WritePath(h, files, r.body.contract) == Legacy(other))
  {
    hide Canonical, Legacy;
  }

  /** For ids whose canonical names differ, only a legacy file can be overwritten, and exactly then it is. */
  lemma {:induction false} LegacyOverwrittenExactly(h: Hash, files: Directory, r: Record, other: string)
    requires Put(h, files, r).Some? && other != r.body.contract && Fetch(h, files, other).Found?
    requires Canonical(h, other) != Canonical(h, r.body.contract)
    ensures Fetch(h, Put(h, files, r).value, other) != Fetch(h, files, other) <==>
            Canonical(h, other).value !in files && Legacy(other) == WritePath(h, files, r.body.contract)
  {
    PutDisturbsExactly(h, files, r, other);
  }

  /** Such a file exists: "a_b" owns the name that "a.b" used to have. */
  lemma {:induction false} LegacyFileIsOverwritten(h: Hash, dotted: Record, underscored: Record)
    requires DigestPrefix(h) && Valid(dotted) && Valid(underscored) && dotted.body.contract == "a.b" && underscored.body.contract == "a_b"
    ensures var files := map["a_b.json" := dotted];
            && Fetch(h, files, "a.b") == Found(dotted) && Put(h, files, underscored).Some?
            && Fetch(h, Put(h, files, underscored).value, "a.b") == Refused
  {
    assert SafeName("a.b") == "a_b";
    assert SafeName("a_b") == "a_b";
    assert "a.b"[1] != "a_b"[1];
    var name := Canonical(h, "a.b").value;
    assert |name| >= 26;
    assert name != "a_b.json";
    hide SafeName, Stem;
    var files := map["a_b.json" := dotted];
    assert "a_b" + ".json" == "a_b.json";
    assert Legacy("a.b") == Some("a_b.json") == Canonical(h, "a_b") == Legacy("a_b");
  }

  // ---- Directories the store builds ----

  /** Every file sits at the canonical name of the contract it records. */
  ghost predicate Placed(h: Hash, files: Directory) {
    forall n :: n in files ==> Canonical(h, files[n].body.contract) == Some(n) && Valid(files[n]) && |files[n].body.contract| <= 180
  }

  /** In a placed directory `put` writes the contract's own canonical file and nothing else. */
  lemma {:induction false} PutIsCanonical(h: Hash, files: Directory, r: Record)
    requires Placed(h, files) && Put(h, files, r).Some?
    ensures Canonical(h, r.body.contract).Some?
    ensures Put(h, files, r).value == files[Canonical(h, r.body.contract).value := r] && Placed(h, Put(h, files, r).value)
  {
    hide Canonical;
    var id := r.body.contract;
    var canonical, legacy := Canonical(h, id).value, Legacy(id).value;
    if legacy in files && files[legacy].body.contract == id {
      assert canonical == legacy;
    }
  }

  /** A lookup in a placed directory finds exactly the asked contract's record in its canonical file. */
  lemma {:induction false} FetchIsOwn(h: Hash, files: Directory, id: string)
    requires Placed(h, files)
    ensures Fetch(h, files, id).Found? <==>
            Canonical(h, id).Some? && Canonical(h, id).value in files && files[Canonical(h, id).value].body.contract == id
    ensures Fetch(h, files, id).Found? ==> Fetch(h, files, id).record == files[Canonical(h, id).value]
  {
    hide Canonical;
  }

  /** The records `put` accepts: sealed, with a non-empty id of at most 180 characters. */
  predicate Storable(r: Record) {
    Valid(r) && 1 <= |r.body.contract| <= 180
  }

  lemma PutAcceptsStorable(h: Hash, files: Directory, r: Record)
    ensures Put(h, files, r).Some? <==> Storable(r)
  {}

  // ---- Runs from an empty directory ----

  /** `put` of a record, or one of `acquire_dependency`, `release_dependency`, `begin_drain` and a stored transition. */
  datatype StoreOp = Store(record: Record) | Change(id: string, op: Op)

  function StoreStep(h: Hash, files: Directory, o: StoreOp): Directory {
    match o
    case Store(r) => if Put(h, files, r).Some? then Put(h, files, r).value else files
    case Change(id, op) =>
      match Fetch(h, files, id)
      case Found(current) =>
        var next := Perform(current, op);
        if next.Some? && Put(h, files, next.value).Some? then Put(h, files, next.value).value else files
      case _ => files
  }

  function StoreRun(h: Hash, ops: seq<StoreOp>): Directory {
    if ops == [] then map[] else StoreStep(h, StoreRun(h, ops[..|ops| - 1]), ops[|ops| - 1])
  }

  /** Reference: the store as a plain dictionary keyed by contract id. */
  function DictStep(dict: map<string, Record>, o: StoreOp): map<string, Record> {
    match o
    case Store(r) => if Storable(r) then dict[r.body.contract := r] else dict
    case Change(id, op) =>
      if id !in dict then dict
      else
        var next := Perform(dict[id], op);
        if next.Some? then dict[id := next.value] else dict
  }

  function DictRun(ops: seq<StoreOp>): map<string, Record> {
    if ops == [] then map[] else DictStep(DictRun(ops[..|ops| - 1]), ops[|ops| - 1])
  }

  /** A lookup in the directory gives what the dictionary holds. */
  ghost predicate Agrees(h: Hash, files: Directory, dict: map<string, Record>, id: string) {
    if id in dict then Fetch(h, files, id) == Found(dict[id]) else !Fetch(h, files, id).Found?
  }

  ghost predicate NamesApart(h: Hash, ids: set<string>) {
    forall a, b :: a in ids && b in ids && a != b ==> Canonical(h, a) != Canonical(h, b)
  }

  lemma {:induction false} PerformStores(r: Record, op: Op)
    requires Perform(r, op).Some?
    ensures Valid(Perform(r, op).value) && Perform(r, op).value.body.contract == r.body.contract
  {
    hide Identifiers, AdjoinAll, Allowed;
  }

  lemma {:induction false} FoundIsStorable(h: Hash, files: Directory, id: string, r: Record)
    requires Placed(h, files) && Fetch(h, files, id).Found? && Valid(r) && r.body.contract == id
    ensures Storable(r)
  {
    hide Digested;
  }

  /** What one change does to a placed directory: one canonical file rewritten, or nothing. */
  lemma {:induction false} ChangeIsCanonical(h: Hash, files: Directory, id: string, op: Op)
    requires Placed(h, files)
    ensures var current := Fetch(h, files, id);
            StoreStep(h, files, Change(id, op)) ==
              if current.Found? && Perform(current.record, op).Some? then files[Canonical(h, id).value := Perform(current.record, op).value] else files
    ensures Placed(h, StoreStep(h, files, Change(id, op)))
  {
    hide Perform, Placed, Fetch, Canonical, Put;
    var current := Fetch(h, files, id);
    if current.Found? && Perform(current.record, op).Some? {
      FetchIsOwn(h, files, id);
      PerformStores(current.record, op);
      FoundIsStorable(h, files, id, Perform(current.record, op).value);
      PutAcceptsStorable(h, files, Perform(current.record, op).value);
      PutIsCanonical(h, files, Perform(current.record, op).value);
    }
  }

  /** Every directory built from an empty one has each file at its own canonical name. */
  lemma {:induction false} BuiltIsPlaced(h: Hash, ops: seq<StoreOp>)
    ensures Placed(h, StoreRun(h, ops))
  {
    if ops != [] {
      hide Put, Placed, Fetch;
      var before, o := StoreRun(h, ops[..|ops| - 1]), ops[|ops| - 1];
      BuiltIsPlaced(h, ops[..|ops| - 1]);
      match o
      case Store(r) => if Put(h, before, r).Some? { PutIsCanonical(h, before, r); }
      case Change(id, op) => ChangeIsCanonical(h, before, id, op);
    }
  }

  /** Files and dictionary hold the same records. */
  ghost predicate Mirrors(h: Hash, files: Directory, dict: map<string, Record>) {
    && (forall id :: id in dict ==>
          Canonical(h, id).Some? && Canonical(h, id).value in files && files[Canonical(h, id).value] == dict[id] && dict[id].body.contract == id)
    && (forall n :: n in files ==> files[n].body.contract in dict && dict[files[n].body.contract] == files[n])
  }

  lemma {:induction false} MirrorsAgrees(h: Hash, files: Directory, dict: map<string, Record>, id: string)
    requires Placed(h, files) && Mirrors(h, files, dict)
    ensures Agrees(h, files, dict, id)
  {
    hide Canonical, Fetch, Placed;
    FetchIsOwn(h, files, id);
  }

  lemma {:induction false} MirrorsWrite(h: Hash, files: Directory, dict: map<string, Record>, r: Record)
    requires Placed(h, files) && Mirrors(h, files, dict) && Canonical(h, r.body.contract).Some?
    requires NamesApart(h, dict.Keys + {r.body.contract})
    ensures Mirrors(h, files[Canonical(h, r.body.contract).value := r], dict[r.body.contract := r])
  {
    hide Canonical;
    var id, ids := r.body.contract, dict.Keys + {r.body.contract};
    forall other | other in dict && other != id
      ensures Canonical(h, other) != Canonical(h, id)
    {
      assert other in ids && id in ids;
    }
  }

  lemma {:induction false} MirrorsStep(h: Hash, files: Directory, dict: map<string, Record>, o: StoreOp)
    requires Placed(h, files) && Mirrors(h, files, dict) && NamesApart(h, DictStep(dict, o).Keys)
    ensures Mirrors(h, StoreStep(h, files, o), DictStep(dict, o))
  {
    hide Perform, Placed, Fetch, Put, Canonical, Mirrors, NamesApart, Storable;
    match o
    case Store(r) =>
      PutAcceptsStorable(h, files, r);
      if Storable(r) {
        PutIsCanonical(h, files, r);
        assert dict[r.body.contract := r].Keys == dict.Keys + {r.body.contract};
        MirrorsWrite(h, files, dict, r);
      }
    case Change(id, op) =>
      MirrorsAgrees(h, files, dict, id);
      ChangeIsCanonical(h, files, id, op);
      if id in dict && Perform(dict[id], op).Some? {
        var next := Perform(dict[id], op).value;
        PerformStores(dict[id], op);
        FetchIsOwn(h, files, id);
        assert dict[id := next].Keys == dict.Keys + {id};
        MirrorsWrite(h, files, dict, next);
      }
  }

  lemma {:induction false} RunMirrors(h: Hash, ops: seq<StoreOp>)
    requires NamesApart(h, DictRun(ops).Keys)
    ensures Mirrors(h, StoreRun(h, ops), DictRun(ops))
  {
    if ops != [] {
      hide StoreStep, Mirrors, Canonical;
      var init := ops[..|ops| - 1];
      assert DictRun(init).Keys <= DictRun(ops).Keys;
      RunMirrors(h, init);
      BuiltIsPlaced(h, init);
      MirrorsStep(h, StoreRun(h, init), DictRun(init), ops[|ops| - 1]);
    }
  }

  /** The directory is a dictionary exactly as long as no two stored contracts share a file name. */
  lemma {:induction false} DictionaryIffNamesApart(h: Hash, ops: seq<StoreOp>)
    ensures (forall id :: Agrees(h, StoreRun(h, ops), DictRun(ops), id)) <==> NamesApart(h, DictRun(ops).Keys)
  {
    hide Fetch, Canonical, StoreRun, DictRun, Placed;
    var files, dict := StoreRun(h, ops), DictRun(ops);
    BuiltIsPlaced(h, ops);
    if NamesApart(h, dict.Keys) {
      RunMirrors(h, ops);
      forall id
        ensures Agrees(h, files, dict, id)
      {
        MirrorsAgrees(h, files, dict, id);
      }
    } else {
      var a, b :| a in dict && b in dict && a != b && Canonical(h, a) == Canonical(h, b);
      FetchIsOwn(h, files, a);
      FetchIsOwn(h, files, b);
      assert !Agrees(h, files, dict, a) || !Agrees(h, files, dict, b);
    }
  }

  ghost predicate InjectiveOn(h: Hash, ids: set<string>) {
    forall a, b :: a in ids && b in ids && h(a) == h(b) ==> a == b
  }

  lemma {:induction false} DictIdsStorable(h: Hash, ops: seq<StoreOp>, id: string)
    requires id in DictRun(ops)
    ensures Storable(DictRun(ops)[id]) && DictRun(ops)[id].body.contract == id && Canonical(h, id).Some?
  {
    hide Perform, Digested;
    var dict, o := DictRun(ops[..|ops| - 1]), ops[|ops| - 1];
    if id in dict {
      DictIdsStorable(h, ops[..|ops| - 1], id);
      if o.Change? && o.id == id && Perform(dict[id], o.op).Some? { PerformStores(dict[id], o.op); }
    }
  }

  /**
   Refinement: over every run of puts and updates from an empty directory, and with digest prefixes
   that tell the stored ids apart, the files behave like a dictionary keyed by contract id if and
   only if no stored id spells the digested name of another.
   */
  lemma {:induction false} StoreRefinesDictionary(h: Hash, ops: seq<StoreOp>)
    requires DigestPrefix(h) && InjectiveOn(h, DictRun(ops).Keys)
    ensures (forall id :: Agrees(h, StoreRun(h, ops), DictRun(ops), id)) <==>
            !exists a, b :: a in DictRun(ops) && b in DictRun(ops) && Spells(h, a, b)
  {
    hide Agrees, Canonical, Spells, StoreRun, DictRun, DigestPrefix;
    DictionaryIffNamesApart(h, ops);
    var ids := DictRun(ops).Keys;
    forall a, b | a in ids && b in ids && a != b
      ensures Canonical(h, a) == Canonical(h, b) <==> Spells(h, a, b) || Spells(h, b, a)
    {
      DictIdsStorable(h, ops, a);
      DictIdsStorable(h, ops, b);
      SharedNameExactly(h, a, b);
    }
    forall a, b | Spells(h, a, b)
      ensures a != b
    {
      NeverSpellsItself(h, a, b);
    }
  }

  lemma NeverSpellsItself(h: Hash, a: string, b: string)
    requires Spells(h, a, b)
    ensures a != b
  {}

  lemma {:induction false} RunOfTwo(h: Hash, a: StoreOp, b: StoreOp)
    ensures StoreRun(h, [a, b]) == StoreStep(h, StoreStep(h, map[], a), b)
  {
    hide StoreStep;
    assert [a, b][..1] == [a] && [a][..0] == [];
    assert StoreRun(h, [a]) == StoreStep(h, StoreRun(h, [a][..0]), a);
  }

  /** The failing family at work: storing the twin of any digested id makes the first one unreadable. */
  lemma {:induction false} TwinOverwrites(h: Hash, first: Record, twin: Record)
    requires DigestPrefix(h) && Storable(first) && Storable(twin)
    requires SafeText(first.body.contract) == Some(first.body.contract) && !IsPlain(first.body.contract)
    requires twin.body.contract == Digested(h, first.body.contract)
    ensures var files := StoreRun(h, [Store(first), Store(twin)]);
            Fetch(h, files, first.body.contract) == Refused && Fetch(h, files, twin.body.contract) == Found(twin)
  {
    hide Canonical, Digested, SafeText, StoreRun;
    DigestedNameIsLegalId(h, first.body.contract);
    var one := StoreStep(h, map[], Store(first));
    RunOfTwo(h, Store(first), Store(twin));
    PutAcceptsStorable(h, map[], first);
    PutAcceptsStorable(h, one, twin);
    PutIsCanonical(h, map[], first);
    PutIsCanonical(h, one, twin);
    PutIsReadBack(h, one, twin);
  }

  // ---- Safety over whole stores ----

  ghost predicate AllFree(files: Directory) {
    forall n :: n in files ==> Stored(files[n]) && RetiredIsFree(files[n])
  }

  /**
   Over every run of puts and updates of many contracts, in which no record is put that is already
   retired with dependencies: no lookup returns a retired record that has dependencies.
   */
  lemma {:induction false} NoRetiredDependencies(h: Hash, ops: seq<StoreOp>, id: string)
    requires forall i :: 0 <= i < |ops| && ops[i].Store? ==> Stored(ops[i].record) && RetiredIsFree(ops[i].record)
    ensures var r := Fetch(h, StoreRun(h, ops), id);
            r.Found? && r.record.body.state == RETIRED ==> r.record.body.dependencies == []
  {
    hide Canonical;
    RunIsFree(h, ops);
  }

  lemma {:induction false} RunIsFree(h: Hash, ops: seq<StoreOp>)
    requires forall i :: 0 <= i < |ops| && ops[i].Store? ==> Stored(ops[i].record) && RetiredIsFree(ops[i].record)
    ensures AllFree(StoreRun(h, ops))
  {
    if ops != [] {
      hide Stored, RetiredIsFree, Perform, Canonical, Legacy;
      var init, o := ops[..|ops| - 1], ops[|ops| - 1];
      RunIsFree(h, init);
      if o.Change? && Fetch(h, StoreRun(h, init), o.id).Found? {
        var current := Fetch(h, StoreRun(h, init), o.id).record;
        if Perform(current, o.op).Some? {
          PerformKeeps(current, o.op);
          RetiredStaysFree(current, o.op);
        }
      }
    }
  }

  /** The operations of a run that address one contract. */
  function OpsOn(ops: seq<StoreOp>, id: string): seq<Op> {
    if ops == [] then []
    else
      var o := ops[|ops| - 1];
      OpsOn(ops[..|ops| - 1], id) + if o.Change? && o.id == id then [o.op] else []
  }

  lemma DictStepAt(dict: map<string, Record>, o: StoreOp, id: string)
    requires id in dict && (o.Store? ==> o.record.body.contract != id)
    ensures id in DictStep(dict, o)
    ensures DictStep(dict, o)[id] == if o.Change? && o.id == id && Perform(dict[id], o.op).Some? then Perform(dict[id], o.op).value else dict[id]
  {}

  lemma {:induction false} AfterOne(r: Record, ops: seq<Op>, op: Op)
    ensures After(r, ops + [op]) == if Perform(After(r, ops), op).Some? then Perform(After(r, ops), op).value else After(r, ops)
  {
    hide Perform;
    assert (ops + [op])[..|ops|] == ops;
  }

  /** Between puts, a contract's record in the dictionary goes through exactly the operations that address it. */
  lemma {:induction false} DictFollows(ops: seq<StoreOp>, more: seq<StoreOp>, id: string)
    requires id in DictRun(ops)
    requires forall i :: 0 <= i < |more| && more[i].Store? ==> more[i].record.body.contract != id
    ensures id in DictRun(ops + more) && DictRun(ops + more)[id] == After(DictRun(ops)[id], OpsOn(more, id))
    decreases |more|
  {
    hide Perform, DictStep, After;
    if more == [] {
      assert ops + more == ops;
      NothingAfter(DictRun(ops)[id]);
    } else {
      var init, o := more[..|more| - 1], more[|more| - 1];
      DictFollows(ops, init, id);
      assert (ops + more)[..|ops + more| - 1] == ops + init;
      DictStepAt(DictRun(ops + init), o, id);
      AfterOne(DictRun(ops)[id], OpsOn(init, id), if o.Change? then o.op else Release(""));
      assert OpsOn(more, id) == if o.Change? && o.id == id then OpsOn(init, id) + [o.op] else OpsOn(init, id);
    }
  }

  lemma NothingAfter(r: Record)
    ensures After(r, []) == r
  {}

  lemma {:induction false} DictGrows(ops: seq<StoreOp>, more: seq<StoreOp>)
    ensures DictRun(ops).Keys <= DictRun(ops + more).Keys
    decreases |more|
  {
    hide Perform;
    if more == [] {
      assert ops + more == ops;
    } else {
      DictGrows(ops, more[..|more| - 1]);
      assert (ops + more)[..|ops + more| - 1] == ops + more[..|more| - 1];
    }
  }

  /**
   Draining is one way for whole stores: once a contract read from the directory has new assignment
   disabled, then in every later directory, as long as the contract is not put again and no file
   name is shared, the contract is still found, still disabled, its dependencies only shrank, and at
   most three lifecycle transitions happened.
   */
  lemma {:induction false} StoreDrainIsOneWay(h: Hash, ops: seq<StoreOp>, more: seq<StoreOp>, id: string)
    requires NamesApart(h, DictRun(ops + more).Keys)
    requires forall i :: 0 <= i < |ops| && ops[i].Store? ==> Stored(ops[i].record) && RetiredIsFree(ops[i].record)
    requires forall i :: 0 <= i < |more| && more[i].Store? ==> more[i].record.body.contract != id
    requires var r := Fetch(h, StoreRun(h, ops), id); r.Found? && Disabled(r.record.body.state)
    ensures var r, t := Fetch(h, StoreRun(h, ops), id).record, Fetch(h, StoreRun(h, ops + more), id);
            && t.Found? && Disabled(t.record.body.state)
            && (forall v :: v in t.record.body.dependencies ==> v in r.body.dependencies)
            && Moves(r, OpsOn(more, id)) + Remaining(t.record.body.state) <= Remaining(r.body.state) <= 3
  {
    hide Fetch, Canonical, StoreRun, Stored, RetiredIsFree, After, Placed;
    DictGrows(ops, more);
    DictionaryIffNamesApart(h, ops);
    DictionaryIffNamesApart(h, ops + more);
    assert Agrees(h, StoreRun(h, ops), DictRun(ops), id);
    assert Agrees(h, StoreRun(h, ops + more), DictRun(ops + more), id);
    BuiltIsPlaced(h, ops);
    FetchIsOwn(h, StoreRun(h, ops), id);
    RunIsFree(h, ops);
    DictFollows(ops, more, id);
    DrainIsOneWay(DictRun(ops)[id], OpsOn(more, id));
  }

  /**
   The same for whole stores: an acquire that the directory took is held in every later directory,
   as long as the contract is not put again, the id is not released and no file name is shared.
   */
  lemma {:induction false} StoreHoldsUntilReleased(h: Hash, ops: seq<StoreOp>, more: seq<StoreOp>, id: string, task: string)
    requires NamesApart(h, DictRun(ops + more).Keys)
    requires Fetch(h, StoreRun(h, ops), id).Found? && Perform(Fetch(h, StoreRun(h, ops), id).record, Acquire(task)).Some?
    requires more != [] && more[0] == Change(id, Acquire(task))
    requires forall i :: 0 <= i < |more| ==> more[i] != Change(id, Release(Strip(task)))
    requires forall i :: 0 <= i < |more| && more[i].Store? ==> more[i].record.body.contract != id
    ensures var t := Fetch(h, StoreRun(h, ops + more), id);
            && t.Found? && Strip(task) in t.record.body.dependencies
            && forall evidence :: StoreStep(h, StoreRun(h, ops + more), Change(id, Move(RETIRED, evidence))) == StoreRun(h, ops + more)
  {
    hide Fetch, Canonical, StoreRun, After, Placed, Perform, Strip, Put;
    DictGrows(ops, more);
    DictionaryIffNamesApart(h, ops);
    DictionaryIffNamesApart(h, ops + more);
    assert Agrees(h, StoreRun(h, ops), DictRun(ops), id);
    assert Agrees(h, StoreRun(h, ops + more), DictRun(ops + more), id);
    DictFollows(ops, more, id);
    var r, rest := DictRun(ops)[id], OpsOn(more[1..], id);
    FirstOp(more, id);
    OpsAddressed(more[1..], id, Release(Strip(task)));
    AfterFirst(r, Acquire(task), rest);
    HeldUntilReleased(r, task, rest);
  }

  lemma {:induction false} FirstOp(more: seq<StoreOp>, id: string)
    requires more != [] && more[0].Change? && more[0].id == id
    ensures OpsOn(more, id) == [more[0].op] + OpsOn(more[1..], id)
  {
    if |more| == 1 {
      assert more[..0] == [] && more[1..] == [];
    } else {
      FirstOp(more[..|more| - 1], id);
      assert more[..|more| - 1][1..] == more[1..][..|more[1..]| - 1];
    }
  }

  lemma {:induction false} OpsAddressed(more: seq<StoreOp>, id: string, op: Op)
    requires forall i :: 0 <= i < |more| ==> more[i] != Change(id, op)
    ensures op !in OpsOn(more, id)
  {
    if more != [] { OpsAddressed(more[..|more| - 1], id, op); }
  }

  // ---- Listing ----

  /** Contract ids in the order their first file is met. */
  function IdOrder(files: Directory, names: seq<string>): seq<string>
    requires forall n :: n in names ==> n in files
  {
    if names == [] then [] else Adjoin(IdOrder(files, names[..|names| - 1]), files[names[|names| - 1]].body.contract)
  }

  /** What the listing holds for one contract after these files: a record, and whether it is the canonical one. */
  function Listed(h: Hash, files: Directory, names: seq<string>, id: string): Option<(Record, bool)>
    requires forall n :: n in names ==> n in files
  {
    if names == [] then None
    else
      var before, n := Listed(h, files, names[..|names| - 1], id), names[|names| - 1];
      if files[n].body.contract != id then before
      else if before.None? || (Canonical(h, id) == Some(n) && !before.value.1) then Some((files[n], Canonical(h, id) == Some(n)))
      else before
  }

  /** The canonical file wins over every other file of its contract; without one the first file in name order does. */
  lemma {:induction false} CanonicalFileWins(h: Hash, files: Directory, names: seq<string>, id: string)
    requires forall n :: n in names ==> n in files
    ensures Listed(h, files, names, id).None? <==> forall i :: 0 <= i < |names| ==> files[names[i]].body.contract != id
    ensures Listed(h, files, names, id).Some? ==>
              var (r, canonical) := Listed(h, files, names, id).value;
              && r.body.contract == id
              && (canonical <==> exists n :: n in names && Canonical(h, id) == Some(n) && files[n].body.contract == id)
              && (canonical ==> files[Canonical(h, id).value] == r)
              && (!canonical ==> exists i :: 0 <= i < |names| && files[names[i]] == r && forall k :: 0 <= k < i ==> files[names[k]].body.contract != id)
  {
    hide Canonical;
    if names != [] {
      var init, n := names[..|names| - 1], names[|names| - 1];
      assert names == init + [n];
      CanonicalFileWins(h, files, init, id);
      if Listed(h, files, init, id).Some? && !Listed(h, files, init, id).value.1 {
        var i :| 0 <= i < |init| && files[init[i]] == Listed(h, files, init, id).value.0
                 && forall k :: 0 <= k < i ==> files[init[k]].body.contract != id;
        assert names[i] == init[i] && forall k :: 0 <= k < i ==> names[k] == init[k];
      } else if files[n].body.contract == id && Listed(h, files, init, id).None? {
        assert names[|init|] == n;
      }
    }
  }

  lemma {:induction false} IdOrderExactly(files: Directory, names: seq<string>)
    requires forall n :: n in names ==> n in files
    ensures Distinct(IdOrder(files, names))
    ensures forall id :: id in IdOrder(files, names) <==> exists i :: 0 <= i < |names| && files[names[i]].body.contract == id
  {
    if names != [] {
      var init, last := names[..|names| - 1], files[names[|names| - 1]].body.contract;
      IdOrderExactly(files, init);
      assert forall id :: id in IdOrder(files, names) <==> id in IdOrder(files, init) || id == last;
      forall id | id in IdOrder(files, names)
        ensures exists i :: 0 <= i < |names| && files[names[i]].body.contract == id
      {
        if id in IdOrder(files, init) {
          var i :| 0 <= i < |init| && files[init[i]].body.contract == id;
          assert names[i] == init[i];
        }
      }
      forall i | 0 <= i < |names|
        ensures files[names[i]].body.contract in IdOrder(files, names)
      {
        if i < |init| { assert files[init[i]].body.contract in IdOrder(files, init); }
      }
    }
  }

  /** The records of a listing: for each contract in that order, the one that `Listed` keeps. */
  function Listing(h: Hash, files: Directory, names: seq<string>, ids: seq<string>): seq<Record>
    requires forall n :: n in names ==> n in files
  {
    if ids == [] then []
    else
      var r := Listed(h, files, names, ids[|ids| - 1]);
      Listing(h, files, names, ids[..|ids| - 1]) + if r.Some? then [r.value.0] else []
  }

  class CapabilityLifecycleStore {
    const hash: Hash
    var files: Directory

    constructor (hash: Hash)
      ensures this.hash == hash && files == map[]
    {
      this.hash, files := hash, map[];
    }

    method PutRecord(r: Record) returns (ok: bool)
      modifies this
      ensures ok == Put(hash, old(files), r).Some?
      ensures files == StoreStep(hash, old(files), Store(r))
    {
      if !Valid(r) { return false; }
      var path := WritePath(hash, files, r.body.contract);
      if path.None? { return false; }
      files := files[path.value := r];
      return true;
    }

    /** `acquire_dependency`, `release_dependency`, `begin_drain`, or a stored transition: read, change, write back. */
    method Update(id: string, op: Op) returns (r: Option<Record>)
      requires Placed(hash, files)
      modifies this
      ensures Placed(hash, files) && files == StoreStep(hash, old(files), Change(id, op))
      ensures r == if old(Fetch(hash, files, id)).Found? then Perform(old(Fetch(hash, files, id)).record, op) else None
      ensures r.Some? ==> files == old(files)[Canonical(hash, id).value := r.value]
      ensures r.Some? && op.Acquire? ==>
                forall x :: x in r.value.body.dependencies <==>
                  exists v :: (v in old(Fetch(hash, files, id)).record.body.dependencies || v == op.task) && SafeText(v) == Some(x)
      ensures r.Some? && op.Release? ==>
                forall x :: x in r.value.body.dependencies <==>
                  exists v :: v in old(Fetch(hash, files, id)).record.body.dependencies && v != op.task && SafeText(v) == Some(x)
    {
      hide Perform, Placed, Fetch, Put, Canonical, SafeText;
      ChangeIsCanonical(hash, files, id, op);
      var current := Fetch(hash, files, id);
      if !current.Found? { return None; }
      var next := Perform(current.record, op);
      if next.None? { return None; }
      if op.Acquire? { AcquireExactly(current.record, op.task); }
      if op.Release? { ReleaseExactly(current.record, op.task); }
      var _ := PutRecord(next.value);
      return next;
    }

    /** `list_records` over the directory's names, sorted; None where a record is invalid. */
    method ListRecords(glob: seq<string>) returns (r: Option<seq<Record>>)
      requires forall n :: n in glob <==> n in files
      ensures var names := Sorted(glob, Leq);
              && (forall n :: n in names ==> n in files)
              && r == if forall n :: n in files ==> Valid(files[n]) then Some(Listing(hash, files, names, IdOrder(files, names))) else None
    {
      hide Canonical, Sorted, Listing, Listed, Leq;
      var names := Sorted(glob, Leq);
      SortedPermutes(glob, Leq);
      SameMembers(names, glob);
      var ids: seq<string>, found: map<string, (Record, bool)> := [], map[];
      var i := 0;
      ListedNone(hash, files, names);
      while i < |names|
        invariant 0 <= i <= |names|
        invariant forall k :: 0 <= k < i ==> Valid(files[names[k]])
        invariant ids == IdOrder(files, names[..i])
        invariant forall id :: Listed(hash, files, names[..i], id) == if id in found then Some(found[id]) else None
        invariant forall id :: id in ids <==> id in found
      {
        var record := files[names[i]];
        if !Valid(record) { return None; }
        var id := record.body.contract;
        var canonical := Canonical(hash, id) == Some(names[i]);
        assert names[..i + 1][..i] == names[..i];
        ListedNext(hash, files, names, i);
        if id !in found || (canonical && !found[id].1) {
          found := found[id := (record, canonical)];
        }
        ids := Adjoin(ids, id);
        i := i + 1;
      }
      assert names[..i] == names;
      assert forall n :: n in files ==> n in names;
      var listing := Values(ids, found);
      ValuesAreListing(hash, files, names, ids, found);
      return Some(listing);
    }
  }

  lemma ListedNone(h: Hash, files: Directory, names: seq<string>)
    requires forall n :: n in names ==> n in files
    ensures forall id :: Listed(h, files, names[..0], id).None?
  {}

  lemma {:induction false} ListedNext(h: Hash, files: Directory, names: seq<string>, i: nat)
    requires i < |names| && forall n :: n in names ==> n in files
    ensures forall id ::
              Listed(h, files, names[..i + 1], id) ==
              var before := Listed(h, files, names[..i], id);
              if files[names[i]].body.contract != id then before
              else if before.None? || (Canonical(h, id) == Some(names[i]) && !before.value.1) then Some((files[names[i]], Canonical(h, id) == Some(names[i])))
              else before
  {
    hide Canonical;
    assert names[..i + 1][..i] == names[..i];
  }

  /** `tuple(value[0] for value in records.values())` */
  function Values(ids: seq<string>, found: map<string, (Record, bool)>): seq<Record>
    requires forall id :: id in ids ==> id in found
  {
    if ids == [] then [] else Values(ids[..|ids| - 1], found) + [found[ids[|ids| - 1]].0]
  }

  lemma {:induction false} ValuesAreListing(h: Hash, files: Directory, names: seq<string>, ids: seq<string>, found: map<string, (Record, bool)>)
    requires forall n :: n in names ==> n in files
    requires forall id :: id in ids ==> id in found && Listed(h, files, names, id) == Some(found[id])
    ensures Values(ids, found) == Listing(h, files, names, ids)
  {
    hide Listed;
    if ids != [] { ValuesAreListing(h, files, names, ids[..|ids| - 1], found); }
  }

  /** In a placed directory different files belong to different contracts, each listed from its only file. */
  lemma {:induction false} PlacedListed(h: Hash, files: Directory, names: seq<string>)
    requires Placed(h, files) && Distinct(names) && forall n :: n in names ==> n in files
    ensures |IdOrder(files, names)| == |names|
    ensures forall i :: 0 <= i < |names| ==> IdOrder(files, names)[i] == files[names[i]].body.contract
    ensures forall i :: 0 <= i < |names| ==> Listed(h, files, names, files[names[i]].body.contract) == Some((files[names[i]], true))
  {
    hide Canonical;
    if names != [] {
      var init, n := names[..|names| - 1], names[|names| - 1];
      PlacedListed(h, files, init);
      assert forall i :: 0 <= i < |init| ==> files[names[i]].body.contract != files[n].body.contract;
      CanonicalFileWins(h, files, init, files[n].body.contract);
    }
  }

  /**
   The listing of a placed directory is exactly what single lookups return, one record for each
   file, in the order of the sorted file names.
   */
  lemma {:induction false} ListingIsLookups(h: Hash, files: Directory, names: seq<string>)
    requires Placed(h, files) && Distinct(names) && forall n :: n in names <==> n in files
    ensures var listing := Listing(h, files, names, IdOrder(files, names));
            && |listing| == |names|
            && (forall i :: 0 <= i < |names| ==> listing[i] == files[names[i]] && Canonical(h, listing[i].body.contract) == Some(names[i]))
            && (forall r :: r in listing <==> Fetch(h, files, r.body.contract) == Found(r))
  {
    hide Canonical, Fetch, Listed, IdOrder;
    PlacedListed(h, files, names);
    ListingAt(h, files, names, IdOrder(files, names));
    var listing := Listing(h, files, names, IdOrder(files, names));
    forall r | r in listing
      ensures Fetch(h, files, r.body.contract) == Found(r)
    {
      var i :| 0 <= i < |listing| && listing[i] == r;
      FetchIsOwn(h, files, r.body.contract);
    }
    forall r: Record | Fetch(h, files, r.body.contract) == Found(r)
      ensures r in listing
    {
      FetchIsOwn(h, files, r.body.contract);
      var i :| 0 <= i < |names| && names[i] == Canonical(h, r.body.contract).value;
      assert listing[i] == r;
    }
  }

  lemma {:induction false} ListingAt(h: Hash, files: Directory, names: seq<string>, ids: seq<string>)
    requires forall n :: n in names ==> n in files
    requires forall i :: 0 <= i < |ids| ==> Listed(h, files, names, ids[i]).Some?
    ensures |Listing(h, files, names, ids)| == |ids|
    ensures forall i :: 0 <= i < |ids| ==> Listing(h, files, names, ids)[i] == Listed(h, files, names, ids[i]).value.0
  {
    hide Listed;
    if ids != [] { ListingAt(h, files, names, ids[..|ids| - 1]); }
  }
}
