/** The envelope-encrypted secret store. Every value is sealed with its own data key, and the
    data keys are wrapped with one key-encryption key. The cipher is any authenticated
    encryption that opens what it sealed; fresh ids, keys and nonces are parameters. */
module SecretsManager {
  import opened Options

  type Bytes = seq<nat>

  /** enc takes a key, a nonce and a plaintext; dec takes a key and a ciphertext. */
  datatype Aead = Aead(enc: (Bytes, nat, Bytes) -> Bytes, dec: (Bytes, Bytes) -> Option<Bytes>)

  ghost predicate Opens(a: Aead) {
    forall k, n, m :: a.dec(k, a.enc(k, n, m)) == Some(m)
  }

  datatype Record = Record(id: string, name: string, wrapped: Bytes, ciphertext: Bytes, version: int)

  datatype Store = Store(records: map<string, Record>, nameToId: map<string, string>, kek: Bytes)

  // ---------------------------------------------------------------- reading

  function Revealed(a: Aead, kek: Bytes, r: Record): Option<Bytes> {
    match a.dec(kek, r.wrapped)
    case None => None
    case Some(dek) => a.dec(dek, r.ciphertext)
  }

  /** The two indexes are inverse to one another. */
  ghost predicate Indexed(records: map<string, Record>, nameToId: map<string, string>) {
    && (forall name | name in nameToId :: nameToId[name] in records && records[nameToId[name]].name == name)
    && (forall id | id in records ::
          records[id].id == id && records[id].name in nameToId && nameToId[records[id].name] == id)
  }

  ghost predicate AllOpen(a: Aead, kek: Bytes, records: map<string, Record>) {
    forall id | id in records :: Revealed(a, kek, records[id]).Some?
  }

  ghost predicate Consistent(a: Aead, s: Store) {
    Indexed(s.records, s.nameToId) && AllOpen(a, s.kek, s.records)
  }

  /** The plain map that the store stands for. */
  ghost function View(a: Aead, s: Store): map<string, Bytes>
    requires Consistent(a, s)
  {
    map name | name in s.nameToId :: Revealed(a, s.kek, s.records[s.nameToId[name]]).value
  }

  // ---------------------------------------------------------------- operations

  /** Fresh random material of one operation: a data key and the nonces of the two seals. */
  datatype Fresh = Fresh(dek: Bytes, wrapNonce: nat, sealNonce: nat)

  function Sealed(a: Aead, kek: Bytes, id: string, name: string, value: Bytes, version: int, f: Fresh): Record {
    Record(id, name, a.enc(kek, f.wrapNonce, f.dek), a.enc(f.dek, f.sealNonce, value), version)
  }

  function Rewrap(a: Aead, oldKek: Bytes, newKek: Bytes, nonce: nat, r: Record): Record {
    match a.dec(oldKek, r.wrapped)
    case None => r
    case Some(dek) => r.(wrapped := a.enc(newKek, nonce, dek))
  }

  /** The re-wrap loop when it has reached the records in done. */
  function Rewrapped(a: Aead, s: Store, newKek: Bytes, nonces: string -> nat, done: set<string>): map<string, Record> {
    map id | id in s.records ::
      if id in done then Rewrap(a, s.kek, newKek, nonces(id), s.records[id]) else s.records[id]
  }

  lemma RewrapNext(a: Aead, s: Store, newKek: Bytes, nonces: string -> nat, done: set<string>, id: string)
    requires AllOpen(a, s.kek, s.records) && done <= s.records.Keys && id in s.records.Keys - done
    ensures var records := Rewrapped(a, s, newKek, nonces, done);
            && id in records && records[id] == s.records[id] && a.dec(s.kek, records[id].wrapped).Some?
            && Rewrapped(a, s, newKek, nonces, done + {id})
               == records[id := records[id].(wrapped := a.enc(newKek, nonces(id), a.dec(s.kek, records[id].wrapped).value))]
    ensures forall rest :: s.records.Keys - rest == done ==> s.records.Keys - (rest - {id}) == done + {id}
  {
  }

  datatype Op =
    | StoreSecret(name: string, value: Bytes, id: string, material: Fresh)
    | RotateSecret(name: string, newValue: Option<Bytes>, material: Fresh)
    | DeleteSecret(name: string)
    | RotateKek(newKek: Bytes, nonces: string -> nat)

  /** The uuid drawn for a new secret is not in use. */
  predicate Unused(s: Store, op: Op) {
    op.StoreSecret? ==> op.id !in s.records
  }

  function Step(a: Aead, s: Store, op: Op): Store
    requires forall name | name in s.nameToId :: s.nameToId[name] in s.records
  {
    match op
    case StoreSecret(name, value, id, f) =>
      if name in s.nameToId then s
      else s.(records := s.records[id := Sealed(a, s.kek, id, name, value, 1, f)], nameToId := s.nameToId[name := id])
    case RotateSecret(name, newValue, f) =>
      if name !in s.nameToId then s
      else
        var r := s.records[s.nameToId[name]];
        (match Revealed(a, s.kek, r)
         case None => s
         case Some(current) =>
           var value := if newValue.Some? then newValue.value else current;
           s.(records := s.records[r.id := Sealed(a, s.kek, r.id, r.name, value, r.version + 1, f)]))
    case DeleteSecret(name) =>
      if name !in s.nameToId then s
      else s.(records := s.records - {s.nameToId[name]}, nameToId := s.nameToId - {name})
    case RotateKek(newKek, nonces) =>
      if |newKek| != 32 then s
      else s.(records := Rewrapped(a, s, newKek, nonces, s.records.Keys), kek := newKek)
  }

  /** What each operation does to the plain map. */
  function MapStep(m: map<string, Bytes>, op: Op): map<string, Bytes> {
    match op
    case StoreSecret(name, value, _, _) => if name in m then m else m[name := value]
    case RotateSecret(name, newValue, _) => if name in m && newValue.Some? then m[name := newValue.value] else m
    case DeleteSecret(name) => m - {name}
    case RotateKek(_, _) => m
  }

  // ---------------------------------------------------------------- refinement

  lemma SealedReveals(a: Aead, kek: Bytes, id: string, name: string, value: Bytes, version: int, f: Fresh)
    requires Opens(a)
    ensures Revealed(a, kek, Sealed(a, kek, id, name, value, version, f)) == Some(value)
  {
  }

  lemma RewrapReveals(a: Aead, oldKek: Bytes, newKek: Bytes, nonce: nat, r: Record)
    requires Opens(a) && Revealed(a, oldKek, r).Some?
    ensures Revealed(a, newKek, Rewrap(a, oldKek, newKek, nonce, r)) == Revealed(a, oldKek, r)
  {
  }

  /** Inside the re-wrap loop the keys are mixed, and every secret is still there: under the
      new key for the records that are done, under the old key for the others. */
  lemma MixedStateLosesNothing(a: Aead, s: Store, newKek: Bytes, nonces: string -> nat, done: set<string>, name: string)
    requires Opens(a) && Consistent(a, s) && name in s.nameToId
    ensures var id := s.nameToId[name];
            id in s.records
            && Revealed(a, if id in done then newKek else s.kek, Rewrapped(a, s, newKek, nonces, done)[id])
               == Some(View(a, s)[name])
  {
  }

  lemma StoreRefines(a: Aead, s: Store, op: Op)
    requires Opens(a) && Consistent(a, s) && op.StoreSecret? && Unused(s, op)
    ensures Consistent(a, Step(a, s, op)) && View(a, Step(a, s, op)) == MapStep(View(a, s), op)
  {
    SealedReveals(a, s.kek, op.id, op.name, op.value, 1, op.material);
    StoreKeeps(a, s, op);
    hide Opens, Sealed;
  }

  lemma StoreKeeps(a: Aead, s: Store, op: Op)
    requires Opens(a) && Consistent(a, s) && op.StoreSecret? && Unused(s, op)
    ensures Consistent(a, Step(a, s, op))
  {
    SealedReveals(a, s.kek, op.id, op.name, op.value, 1, op.material);
    hide Opens, Revealed;
  }

  /** Every secret of a consistent store can be rotated, to the new value or to its own. */
  lemma RotateReplaces(a: Aead, s: Store, op: Op)
    requires Consistent(a, s) && op.RotateSecret?
    ensures op.name !in s.nameToId ==> Step(a, s, op) == s
    ensures op.name in s.nameToId ==>
            var id := s.nameToId[op.name];
            && id in s.records && s.records[id].id == id && s.records[id].name == op.name
            && Revealed(a, s.kek, s.records[id]).Some?
            && var value := if op.newValue.Some? then op.newValue.value else Revealed(a, s.kek, s.records[id]).value;
            Step(a, s, op) ==
              s.(records := s.records[id := Sealed(a, s.kek, id, op.name, value, s.records[id].version + 1, op.material)])
  {
  }

  lemma RotateKeeps(a: Aead, s: Store, op: Op)
    requires Opens(a) && Consistent(a, s) && op.RotateSecret?
    ensures Consistent(a, Step(a, s, op))
  {
  }

  lemma RotateRefines(a: Aead, s: Store, op: Op)
    requires Opens(a) && Consistent(a, s) && op.RotateSecret?
    ensures Consistent(a, Step(a, s, op)) && View(a, Step(a, s, op)) == MapStep(View(a, s), op)
  {
    RotateKeeps(a, s, op);
    RotateReplaces(a, s, op);
    if op.name in s.nameToId {
      var r := s.records[s.nameToId[op.name]];
      var value := if op.newValue.Some? then op.newValue.value else Revealed(a, s.kek, r).value;
      SealedReveals(a, s.kek, r.id, r.name, value, r.version + 1, op.material);
      hide Step;
    }
  }

  lemma DeleteRefines(a: Aead, s: Store, op: Op)
    requires Consistent(a, s) && op.DeleteSecret?
    ensures Consistent(a, Step(a, s, op)) && View(a, Step(a, s, op)) == MapStep(View(a, s), op)
  {
    DeleteKeeps(a, s, op);
    hide Opens, Sealed, AllOpen;
  }

  lemma DeleteKeeps(a: Aead, s: Store, op: Op)
    requires Consistent(a, s) && op.DeleteSecret?
    ensures Consistent(a, Step(a, s, op))
  {
    hide View, Revealed;
  }

  lemma KekRefines(a: Aead, s: Store, op: Op)
    requires Opens(a) && Consistent(a, s) && op.RotateKek?
    ensures Consistent(a, Step(a, s, op)) && View(a, Step(a, s, op)) == View(a, s)
  {
    if |op.newKek| == 32 {
      var s' := Step(a, s, op);
      forall id | id in s.records
        ensures s'.records[id].name == s.records[id].name && s'.records[id].id == id
        ensures Revealed(a, s'.kek, s'.records[id]) == Revealed(a, s.kek, s.records[id])
      {
        RewrapReveals(a, s.kek, op.newKek, op.nonces(id), s.records[id]);
      }
    }
  }

  /** Rotating the key-encryption key replaces it and wraps every data key under the new one;
      nothing else changes, the ciphertexts of the values included. */
  lemma KekIsReplaced(a: Aead, s: Store, op: Op)
    requires Opens(a) && Consistent(a, s) && op.RotateKek?
    ensures var s' := Step(a, s, op);
            && s'.nameToId == s.nameToId && s'.records.Keys == s.records.Keys
            && (|op.newKek| != 32 ==> s' == s)
            && (|op.newKek| == 32 ==>
                  && s'.kek == op.newKek
                  && forall id | id in s.records :: KeptUnder(a, s.kek, s.records[id], op.newKek, s'.records[id]))
  {
  }

  lemma KekStep(a: Aead, s: Store, op: Op)
    requires Consistent(a, s) && op.RotateKek?
    ensures Step(a, s, op) ==
      if |op.newKek| != 32 then s
      else s.(records := Rewrapped(a, s, op.newKek, op.nonces, s.records.Keys), kek := op.newKek)
  {
  }

  /** The record kept its data key and everything but its wrapping. */
  ghost predicate KeptUnder(a: Aead, kek: Bytes, r: Record, newKek: Bytes, r': Record) {
    && a.dec(newKek, r'.wrapped) == a.dec(kek, r.wrapped) && a.dec(newKek, r'.wrapped).Some?
    && r'.ciphertext == r.ciphertext && r'.id == r.id && r'.name == r.name && r'.version == r.version
  }

  /** Rotating a secret seals its value under the new data key, as the next version, and
      touches no other record; storing one starts at version one. */
  lemma SealedUnderFreshKey(a: Aead, s: Store, op: Op)
    requires Opens(a) && Consistent(a, s) && (op.StoreSecret? || op.RotateSecret?) && Unused(s, op)
    requires op.RotateSecret? <==> op.name in s.nameToId
    ensures var s' := Step(a, s, op);
            && s'.kek == s.kek && op.name in s'.nameToId && s'.nameToId[op.name] in s'.records
            && var id := s'.nameToId[op.name];
               var r := s'.records[id];
               && a.dec(s.kek, r.wrapped) == Some(op.material.dek)
               && r.version == (if op.RotateSecret? && id in s.records then s.records[id].version + 1 else 1)
               && s'.records.Keys == s.records.Keys + {id}
               && forall other | other in s.records && other != id :: s'.records[other] == s.records[other]
  {
    if op.RotateSecret? { RotateReplaces(a, s, op); }
  }

  lemma StepRefines(a: Aead, s: Store, op: Op)
    requires Opens(a) && Consistent(a, s) && Unused(s, op)
    ensures Consistent(a, Step(a, s, op)) && View(a, Step(a, s, op)) == MapStep(View(a, s), op)
  {
    match op
    case StoreSecret(_, _, _, _) => StoreRefines(a, s, op);
    case RotateSecret(_, _, _) => RotateRefines(a, s, op);
    case DeleteSecret(_) => DeleteRefines(a, s, op);
    case RotateKek(_, _) => KekRefines(a, s, op);
  }

  /** A run from an empty store; Step is defined once the indexes agree, which every run keeps. */
  ghost predicate Run(a: Aead, states: seq<Store>, ops: seq<Op>, kek: Bytes) {
    && |states| == |ops| + 1 && states[0] == Store(map[], map[], kek)
    && forall i | 0 <= i < |ops| ::
         Unused(states[i], ops[i]) && (Consistent(a, states[i]) ==> states[i + 1] == Step(a, states[i], ops[i]))
  }

  function MapRun(ops: seq<Op>): map<string, Bytes> {
    if ops == [] then map[] else MapStep(MapRun(ops[..|ops| - 1]), ops[|ops| - 1])
  }

  /** Over every run the store shows exactly what a plain map would. */
  lemma {:induction false} EveryRunRefines(a: Aead, states: seq<Store>, ops: seq<Op>, kek: Bytes, i: nat)
    requires Opens(a) && Run(a, states, ops, kek) && i <= |ops|
    ensures Consistent(a, states[i]) && View(a, states[i]) == MapRun(ops[..i])
  {
    if i > 0 {
      EveryRunRefines(a, states, ops, kek, i - 1);
      StepRefines(a, states[i - 1], ops[i - 1]);
      assert ops[..i][..i - 1] == ops[..i - 1];
    }
  }

  // ---------------------------------------------------------------- reloading the file

  /** The two dictionaries rebuilt from the records of the file, in file order. */
  function RecordsOf(file: seq<Record>): map<string, Record> {
    if file == [] then map[]
    else var r := file[|file| - 1]; RecordsOf(file[..|file| - 1])[r.id := r]
  }

  function NamesOf(file: seq<Record>): map<string, string> {
    if file == [] then map[]
    else var r := file[|file| - 1]; NamesOf(file[..|file| - 1])[r.name := r.id]
  }

  lemma {:induction false} RecordsOfHolds(file: seq<Record>)
    requires forall i, j | 0 <= i < j < |file| :: file[i].id != file[j].id
    ensures forall r | r in file :: r.id in RecordsOf(file) && RecordsOf(file)[r.id] == r
    ensures forall id | id in RecordsOf(file) :: RecordsOf(file)[id] in file && RecordsOf(file)[id].id == id
  {
    if file != [] {
      var n := |file| - 1;
      RecordsOfHolds(file[..n]);
      assert file == file[..n] + [file[n]];
    }
  }

  lemma {:induction false} NamesOfHolds(file: seq<Record>)
    requires forall i, j | 0 <= i < j < |file| :: file[i].name != file[j].name
    ensures forall r | r in file :: r.name in NamesOf(file) && NamesOf(file)[r.name] == r.id
    ensures forall name | name in NamesOf(file) :: exists r :: r in file && r.name == name
  {
    if file != [] {
      var n := |file| - 1;
      NamesOfHolds(file[..n]);
      assert file == file[..n] + [file[n]];
    }
  }

  /** The file lists the records of the store, each once, in some order. */
  ghost predicate Lists(file: seq<Record>, records: map<string, Record>) {
    && (forall i, j | 0 <= i < j < |file| :: file[i] != file[j])
    && (forall r :: r in file <==> r.id in records && records[r.id] == r)
  }

  lemma ListedApart(s: Store, file: seq<Record>, i: nat, j: nat)
    requires Indexed(s.records, s.nameToId) && Lists(file, s.records) && i < j < |file|
    ensures file[i].id != file[j].id && file[i].name != file[j].name
  {
  }

  lemma ReloadRestoresRecords(s: Store, file: seq<Record>)
    requires Indexed(s.records, s.nameToId) && Lists(file, s.records)
    ensures RecordsOf(file) == s.records
  {
    forall i, j | 0 <= i < j < |file| ensures file[i].id != file[j].id { ListedApart(s, file, i, j); }
    RecordsOfHolds(file);
    assert forall id | id in s.records :: s.records[id] in file;
    assert RecordsOf(file).Keys == s.records.Keys;
  }

  lemma ReloadRestoresNames(s: Store, file: seq<Record>)
    requires Indexed(s.records, s.nameToId) && Lists(file, s.records)
    ensures NamesOf(file) == s.nameToId
  {
    forall i, j | 0 <= i < j < |file| ensures file[i].name != file[j].name { ListedApart(s, file, i, j); }
    NamesOfHolds(file);
    assert forall name | name in s.nameToId :: s.records[s.nameToId[name]] in file;
    assert NamesOf(file).Keys == s.nameToId.Keys;
  }

  /** Reloading the persisted records, in any order, restores both indexes. */
  lemma ReloadRestores(s: Store, file: seq<Record>)
    requires Indexed(s.records, s.nameToId) && Lists(file, s.records)
    ensures RecordsOf(file) == s.records && NamesOf(file) == s.nameToId
  {
    ReloadRestoresRecords(s, file);
    ReloadRestoresNames(s, file);
  }

  // ---------------------------------------------------------------- the class

  datatype Outcome<T> = Done(value: T) | KeyError | ValueError

  class SecretsManager {
    var records: map<string, Record>
    var nameToId: map<string, string>
    var kek: Bytes
    const aead: Aead

    ghost function Abs(): Store
      reads this
    {
      Store(records, nameToId, kek)
    }

    /** Opens the store on the records of its file; no file reads as no records. */
    constructor (aead: Aead, kek: Bytes, file: seq<Record>)
      ensures this.aead == aead && Abs() == Store(RecordsOf(file), NamesOf(file), kek)
    {
      this.aead, this.kek, records, nameToId := aead, kek, map[], map[];
      new;
      var i := 0;
      while i < |file|
        invariant 0 <= i <= |file| && this.aead == aead && this.kek == kek
        invariant records == RecordsOf(file[..i]) && nameToId == NamesOf(file[..i])
      {
        assert file[..i + 1][..i] == file[..i];
        records := records[file[i].id := file[i]];
        nameToId := nameToId[file[i].name := file[i].id];
        i := i + 1;
      }
      assert file[..i] == file;
    }

    /** Wraps a data key and seals the value with it. */
    method Seal(id: string, name: string, value: Bytes, version: int, material: Fresh) returns (record: Record)
      ensures record == Sealed(aead, kek, id, name, value, version, material)
    {
      var wrapped := aead.enc(kek, material.wrapNonce, material.dek);
      var ciphertext := aead.enc(material.dek, material.sealNonce, value);
      record := Record(id, name, wrapped, ciphertext, version);
    }

    method StoreSecret(name: string, value: Bytes, id: string, material: Fresh) returns (r: Outcome<string>)
      requires Opens(aead) && Consistent(aead, Abs()) && id !in records
      modifies this`records, this`nameToId
      ensures Consistent(aead, Abs()) && Abs() == Step(aead, old(Abs()), Op.StoreSecret(name, value, id, material))
      ensures r == if name in old(nameToId) then ValueError else Done(id)
    {
      StoreRefines(aead, Abs(), Op.StoreSecret(name, value, id, material));
      if name in nameToId { return ValueError; }
      var record := Seal(id, name, value, 1, material);
      records := records[id := record];
      nameToId := nameToId[name := id];
      r := Done(id);
    }

    method GetSecret(name: string) returns (r: Outcome<Bytes>)
      requires Consistent(aead, Abs())
      ensures r == if name in View(aead, Abs()) then Done(View(aead, Abs())[name]) else KeyError
    {
      if name !in nameToId { return KeyError; }
      var record := records[nameToId[name]];
      var dek := aead.dec(kek, record.wrapped);
      var plaintext := aead.dec(dek.value, record.ciphertext);
      r := Done(plaintext.value);
    }

    method DeleteSecret(name: string) returns (r: Outcome<()>)
      requires Consistent(aead, Abs())
      modifies this`records, this`nameToId
      ensures Consistent(aead, Abs()) && Abs() == Step(aead, old(Abs()), Op.DeleteSecret(name))
      ensures r == if name in old(nameToId) then Done(()) else KeyError
    {
      DeleteRefines(aead, Abs(), Op.DeleteSecret(name));
      if name !in nameToId { return KeyError; }
      var id := nameToId[name];
      nameToId := nameToId - {name};
      records := records - {id};
      r := Done(());
    }

    method RotateSecret(name: string, newValue: Option<Bytes>, material: Fresh) returns (r: Outcome<string>)
      requires Opens(aead) && Consistent(aead, Abs())
      modifies this`records
      ensures Consistent(aead, Abs()) && Abs() == Step(aead, old(Abs()), Op.RotateSecret(name, newValue, material))
      ensures r == if name in old(nameToId) then Done(old(nameToId)[name]) else KeyError
    {
      hide Step, Indexed, AllOpen, View, MapStep, Opens;
      ghost var s, op := Abs(), Op.RotateSecret(name, newValue, material);
      RotateKeeps(aead, s, op);
      RotateReplaces(aead, s, op);
      r := KeyError;
      if name in nameToId {
        var record := records[nameToId[name]];
        var oldDek := aead.dec(kek, record.wrapped);
        var oldValue := aead.dec(oldDek.value, record.ciphertext);
        var value := if newValue.Some? then newValue.value else oldValue.value;
        var renewed := Seal(record.id, record.name, value, record.version + 1, material);
        records := records[record.id := renewed];
        r := Done(record.id);
      }
    }

    method RotateKek(newKek: Bytes, nonces: string -> nat) returns (r: Outcome<()>)
      requires Opens(aead) && Consistent(aead, Abs())
      modifies this`records, this`kek
      ensures Consistent(aead, Abs()) && Abs() == Step(aead, old(Abs()), Op.RotateKek(newKek, nonces))
      ensures r == if |newKek| == 32 then Done(()) else ValueError
      ensures |newKek| == 32 ==>
                && kek == newKek && nameToId == old(nameToId) && records.Keys == old(records).Keys
                && forall id | id in records :: KeptUnder(aead, old(kek), old(records)[id], newKek, records[id])
    {
      hide Step, Rewrapped, KeptUnder, Indexed, Opens;
      ghost var op := Op.RotateKek(newKek, nonces);
      KekIsReplaced(aead, Abs(), op);
      KekRefines(aead, Abs(), op);
      KekStep(aead, Abs(), op);
      if |newKek| != 32 { return ValueError; }
      RewrapAll(newKek, nonces);
      kek := newKek;
      r := Done(());
    }

    method RewrapAll(newKek: Bytes, nonces: string -> nat)
      requires AllOpen(aead, kek, records)
      modifies this`records
      ensures records == Rewrapped(aead, old(Abs()), newKek, nonces, old(records).Keys)
    {
      ghost var s := Abs();
      var rest := records.Keys;
      while rest != {}
        invariant rest <= s.records.Keys
        invariant records == Rewrapped(aead, s, newKek, nonces, s.records.Keys - rest)
        decreases rest
      {
        var id :| id in rest;
        RewrapNext(aead, s, newKek, nonces, s.records.Keys - rest, id);
        hide Rewrapped, AllOpen;
        var dek := aead.dec(kek, records[id].wrapped);
        records := records[id := records[id].(wrapped := aead.enc(newKek, nonces(id), dek.value))];
        rest := rest - {id};
      }
    }
  }
}
