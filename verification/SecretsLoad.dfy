/** Loading config.yaml: the six secret fields, the choice of key file and the load
    that first encrypts whatever is still plaintext. */
module SecretsLoad {
  import opened Wrappers
  import opened Text
  import opened KeyFiles
  import opened Secrets

  /** The configuration fields that the loader decrypts. */
  const FIELDS: seq<(string, string)> := [
    ("database", "password"),
    ("database", "root_password"),
    ("database", "exporter_password"),
    ("wordpress", "admin_password"),
    ("pki", "provisioner_password"),
    ("backup", "secret_key")
  ]

  function Find(es: seq<Entry>, key: string): (r: Option<nat>)
    ensures r.Some? ==> r.value < |es| && es[r.value].key == key
  {
    if es == [] then None
    else if es[0].key == key then Some(0)
    else
      match Find(es[1..], key)
      case None => None
      case Some(i) => Some(i + 1)
  }

  /** What decoding the document puts into one field; an absent field is empty. */
  function FieldValue(n: Node, field: (string, string)): Result<string, Failure> {
    if !n.Document? then Err(Malformed)
    else if n.children == [] then Ok("")
    else if !n.children[0].Mapping? then Err(Malformed)
    else
      match Find(n.children[0].entries, field.0)
      case None => Ok("")
      case Some(i) => SectionValue(n.children[0].entries[i].value, field.1)
  }

  function SectionValue(section: Node, key: string): Result<string, Failure> {
    if !section.Mapping? then Err(Malformed)
    else
      match Find(section.entries, key)
      case None => Ok("")
      case Some(i) =>
        if section.entries[i].value.Scalar? then Ok(section.entries[i].value.value) else Err(Malformed)
  }

  /** Where the mapping or its section has no such key, the field is empty; otherwise it is
      the text of the scalar under the key. */
  lemma FieldIs(section: string, key: string, before: seq<Entry>, fields: seq<Entry>, rest: seq<Entry>)
    requires forall e :: e in before ==> e.key != section
    ensures FieldValue(Document([Mapping(before)]), (section, key)) == Ok("")
    ensures (forall e :: e in fields ==> e.key != key) ==>
              FieldValue(Document([Mapping(before + [Entry(section, Mapping(fields))] + rest)]), (section, key)) == Ok("")
    ensures forall i :: 0 <= i < |fields| && fields[i].key == key && (forall j :: 0 <= j < i ==> fields[j].key != key) ==>
              FieldValue(Document([Mapping(before + [Entry(section, Mapping(fields))] + rest)]), (section, key))
              == if fields[i].value.Scalar? then Ok(fields[i].value.value) else Err(Malformed)
  {
    var es := before + [Entry(section, Mapping(fields))] + rest;
    assert es[|before|] == Entry(section, Mapping(fields));
    FindFirst(es, section, |before|);
    FindNone(before, section);
    if forall e :: e in fields ==> e.key != key {
      FindNone(fields, key);
    }
    forall i | 0 <= i < |fields| && fields[i].key == key && (forall j :: 0 <= j < i ==> fields[j].key != key)
      ensures Find(fields, key) == Some(i)
    {
      FindFirst(fields, key, i);
    }
  }

  lemma {:induction false} FindFirst(es: seq<Entry>, key: string, i: nat)
    requires i < |es| && es[i].key == key && forall j :: 0 <= j < i ==> es[j].key != key
    ensures Find(es, key) == Some(i)
  {
    if i > 0 {
      FindFirst(es[1..], key, i - 1);
    }
  }

  lemma {:induction false} FindNone(es: seq<Entry>, key: string)
    requires forall e :: e in es ==> e.key != key
    ensures Find(es, key) == None
  {
    if es != [] {
      FindNone(es[1..], key);
    }
  }

  predicate Decodes(n: Node) {
    forall k | 0 <= k < |FIELDS| :: FieldValue(n, FIELDS[k]).Ok?
  }

  function FieldValues(n: Node): (vs: seq<string>)
    requires Decodes(n)
    ensures |vs| == |FIELDS|
  {
    seq(|FIELDS|, k requires 0 <= k < |FIELDS| => FieldValue(n, FIELDS[k]).value)
  }

  /** The encrypter seals values under exactly the names of the fields that the loader
      decrypts, and no two fields are the same. */
  lemma SecretNames(name: string)
    ensures IsSecretField(name) <==> exists k :: 0 <= k < |FIELDS| && FIELDS[k].1 == name
    ensures |FIELDS| == 6 && forall i, j :: 0 <= i < j < |FIELDS| ==> FIELDS[i] != FIELDS[j]
  {
    assert FIELDS[0].1 == "password" && FIELDS[1].1 == "root_password" && FIELDS[2].1 == "exporter_password";
    assert FIELDS[3].1 == "admin_password" && FIELDS[4].1 == "provisioner_password" && FIELDS[5].1 == "secret_key";
  }

  /** The decrypt loop over the fields, in order, stopping at the first error. */
  function DecryptAll(c: Crypto, id: Identity, vs: seq<string>): (r: Result<seq<string>, Failure>)
    ensures r.Ok? <==> forall k :: 0 <= k < |vs| ==> Decrypt(c, id, vs[k]).Ok?
    ensures r.Ok? ==> |r.value| == |vs| && forall k :: 0 <= k < |vs| ==> r.value[k] == Decrypt(c, id, vs[k]).value
  {
    if vs == [] then Ok([])
    else
      match Decrypt(c, id, vs[0])
      case Err(e) => Err(e)
      case Ok(v) =>
        match DecryptAll(c, id, vs[1..])
        case Err(e) => Err(e)
        case Ok(rest) => Ok([v] + rest)
  }

  /** The loop itself, which overwrites the fields it has read. */
  method DecryptFields(c: Crypto, id: Identity, fields: array<string>) returns (failed: Option<Failure>)
    modifies fields
    ensures match DecryptAll(c, id, old(fields[..]))
            case Ok(values) => failed == None && fields[..] == values
            case Err(e) => failed == Some(e)
  {
    ghost var before := fields[..];
    for k := 0 to fields.Length
      invariant forall j :: k <= j < fields.Length ==> fields[j] == before[j]
      invariant forall j :: 0 <= j < k ==> Decrypt(c, id, before[j]) == Ok(fields[j])
    {
      match Decrypt(c, id, fields[k]) {
        case Ok(v) =>
          fields[k] := v;
        case Err(e) =>
          FirstError(c, id, before, k);
          return Some(e);
      }
    }
    failed := None;
    assert DecryptAll(c, id, before).Ok?;
    assert fields[..] == DecryptAll(c, id, before).value;
  }

  lemma {:induction false} FirstError(c: Crypto, id: Identity, vs: seq<string>, k: nat)
    requires k < |vs| && Decrypt(c, id, vs[k]).Err?
    requires forall j :: 0 <= j < k ==> Decrypt(c, id, vs[j]).Ok?
    ensures DecryptAll(c, id, vs) == Err(Decrypt(c, id, vs[k]).error)
  {
    if k > 0 {
      FirstError(c, id, vs[1..], k - 1);
    }
  }

  type Loaded = Result<seq<string>, Failure>

  function LoadWithKey(c: Crypto, n: Node, files: Files, path: Path): Loaded {
    if !Decodes(n) then Err(Malformed)
    else if forall k | 0 <= k < |FIELDS| :: !IsEncrypted(FieldValues(n)[k]) then Ok(FieldValues(n))
    else if path !in files then Err(KeyMissing)
    else
      match c.parse(TrimSpace(files[path]))
      case None => Err(KeyUnreadable)
      case Some(id) => DecryptAll(c, id, FieldValues(n))
  }

  function DefaultKey(files: Files): Path {
    if AGE_KEY in files then AGE_KEY else if PROJECT_KEY in files then PROJECT_KEY else AGE_KEY
  }

  /** Moves private.key away and loads with the moved key. */
  function MigrateAndLoad(c: Crypto, n: Node, files: Files): (Files, Loaded) {
    match MigrateResult(c.parse, files)
    case None => (files, Err(KeyRefused))
    case Some((moved, target)) => (moved, LoadWithKey(c, n, moved, target))
  }

  /** Loading a document without plaintext secrets. */
  function LoadClean(c: Crypto, n: Node, files: Files): (Files, Loaded) {
    var first := LoadWithKey(c, n, files, DefaultKey(files));
    if first.Ok? then
      if AGE_KEY !in files && PROJECT_KEY in files then MigrateAndLoad(c, n, files) else (files, first)
    else if LEGACY_KEY in files && LoadWithKey(c, n, files, LEGACY_KEY).Ok? then
      (files, LoadWithKey(c, n, files, LEGACY_KEY))
    else if PROJECT_KEY in files && LoadWithKey(c, n, files, PROJECT_KEY).Ok? then
      MigrateAndLoad(c, n, files)
    else (files, first)
  }

  /** The primary identity, migrated from private.key or generated when missing. */
  function EnsureKey(c: Crypto, files: Files, newKey: string): (r: Result<(Files, Identity), Failure>)
    ensures r.Ok? ==> AGE_KEY in r.value.0 && c.parse(TrimSpace(r.value.0[AGE_KEY])) == Some(r.value.1)
    ensures r.Ok? && AGE_KEY in files ==> r.value.0 == files
  {
    var ready :=
      if AGE_KEY in files then Some(files)
      else if PROJECT_KEY in files then
        match MigrateResult(c.parse, files)
        case None => None
        case Some((moved, _)) => Some(moved)
      else Some(files[AGE_KEY := newKey]);
    if ready.None? then Err(KeyRefused)
    else
      match c.parse(TrimSpace(ready.value[AGE_KEY]))
      case None => Err(KeyUnreadable)
      case Some(id) => Ok((ready.value, id))
  }

  datatype Disk = Disk(config: Node, files: Files)

  /** One LoadAutoEncrypt whose file operations all succeed. The generated key and the
      ciphertexts are any that can occur. */
  ghost predicate AutoLoad(c: Crypto, before: Disk, after: Disk, r: Loaded) {
    if !HasPlaintext(before.config) then
      after.config == before.config && (after.files, r) == LoadClean(c, before.config, before.files)
    else
      exists newKey :: AutoEncrypt(c, before, newKey, after, r)
  }

  ghost predicate AutoEncrypt(c: Crypto, before: Disk, newKey: string, after: Disk, r: Loaded) {
    match EnsureKey(c, before.files, newKey)
    case Err(e) => after == before && r == Err(e)
    case Ok((files, id)) =>
      && Encrypts(c, RecipientOf(id), before.config, after.config)
      && after.files == files
      && r == LoadWithKey(c, after.config, files, AGE_KEY)
  }

  /* ---- Which key is used ---- */

  /** The text of the key that the load encrypts under: age.key, or private.key in its
      place, and only when both are absent a new one. */
  function PrimaryText(files: Files, newKey: string): string {
    if AGE_KEY in files then files[AGE_KEY] else if PROJECT_KEY in files then files[PROJECT_KEY] else newKey
  }

  function Primary(c: Crypto, files: Files, newKey: string): Option<Identity> {
    c.parse(TrimSpace(PrimaryText(files, newKey)))
  }

  /** The identity is the one of that text, an error occurs exactly when it does not parse,
      and the text stands in age.key afterwards: an existing age.key stays, private.key has
      moved there, or a new key has been written; no other file changes. */
  lemma EnsureKeyUses(c: Crypto, files: Files, newKey: string)
    ensures var r := EnsureKey(c, files, newKey);
            && (r.Ok? <==> Primary(c, files, newKey).Some?)
            && (r.Ok? ==> Some(r.value.1) == Primary(c, files, newKey) && KeyInPlace(files, newKey, r.value.0))
            && (r.Err? ==> r.error == if AGE_KEY !in files && PROJECT_KEY in files then KeyRefused else KeyUnreadable)
  {
    MigratesWhen(c.parse, files);
  }

  ghost predicate KeyInPlace(files: Files, newKey: string, after: Files) {
    && AGE_KEY in after && after[AGE_KEY] == PrimaryText(files, newKey)
    && (forall p :: p in files && p != PROJECT_KEY ==> p in after && after[p] == files[p])
    && (forall p :: p in after ==> p in files || p == AGE_KEY)
    && (PROJECT_KEY in after <==> PROJECT_KEY in files && AGE_KEY in files)
    && (PROJECT_KEY in after ==> after[PROJECT_KEY] == files[PROJECT_KEY])
  }

  /* ---- What the first load returns ---- */

  /** A field the load after encrypting can read back under the primary identity. */
  predicate Readable(c: Crypto, id: Identity, v: string) {
    if Plaintext(v) then Utf8Len(v) <= MAX_SECRET_SIZE else Decrypt(c, id, v).Ok?
  }

  /** The secret a field stands for. */
  function Meaning(c: Crypto, id: Identity, v: string): string
    requires Readable(c, id, v)
  {
    if IsEncrypted(v) && !Blank(v) then Decrypt(c, id, v).value else v
  }

  lemma SealedReadsBack(c: Crypto, id: Identity, before: string, after: string)
    requires Lawful(c) && SealsTo(c, RecipientOf(id), before, after)
    ensures Decrypt(c, id, after).Ok? <==> Readable(c, id, before)
    ensures Readable(c, id, before) ==> Decrypt(c, id, after).value == Meaning(c, id, before)
    ensures !Plaintext(after)
  {
    if Plaintext(before) {
      var nonce: nat :| after == Sealed(c, RecipientOf(id), before, nonce);
    } else if IsEncrypted(before) {
      assert before[0] == 'E' && before[|before| - 1] == ']';
      TrimmedIsFixed(before);
    }
  }

  lemma {:induction false} FindSame(es: seq<Entry>, fs: seq<Entry>, key: string)
    requires |es| == |fs| && forall i :: 0 <= i < |es| ==> es[i].key == fs[i].key
    ensures Find(es, key) == Find(fs, key)
  {
    if es != [] {
      FindSame(es[1..], fs[1..], key);
    }
  }

  lemma SectionAfterEncrypt(c: Crypto, r: Recipient, n: Node, m: Node, key: string)
    requires Encrypts(c, r, n, m) && IsSecretField(key)
    ensures SectionValue(m, key).Ok? <==> SectionValue(n, key).Ok?
    ensures SectionValue(n, key).Ok? ==> SealsTo(c, r, SectionValue(n, key).value, SectionValue(m, key).value)
  {
    assert TrimSpace("") == "";
    if n.Mapping? {
      assert forall i :: 0 <= i < |n.entries| ==> EncryptsEntry(c, r, n.entries[i], m.entries[i]);
      FindSame(n.entries, m.entries, key);
    }
  }

  lemma FieldAfterEncrypt(c: Crypto, r: Recipient, n: Node, m: Node, k: nat)
    requires Encrypts(c, r, n, m) && k < |FIELDS|
    ensures FieldValue(m, FIELDS[k]).Ok? <==> FieldValue(n, FIELDS[k]).Ok?
    ensures FieldValue(n, FIELDS[k]).Ok? ==>
              SealsTo(c, r, FieldValue(n, FIELDS[k]).value, FieldValue(m, FIELDS[k]).value)
  {
    var field := FIELDS[k];
    assert IsSecretField(field.1) && !IsSecretField(field.0);
    assert TrimSpace("") == "";
    if n.Document? && n.children != [] && n.children[0].Mapping? {
      var top, top' := n.children[0], m.children[0];
      assert Encrypts(c, r, top, top');
      assert forall i :: 0 <= i < |top.entries| ==> EncryptsEntry(c, r, top.entries[i], top'.entries[i]);
      FindSame(top.entries, top'.entries, field.0);
      var found := Find(top.entries, field.0);
      if found.Some? {
        assert EncryptsEntry(c, r, top.entries[found.value], top'.entries[found.value]);
        SectionAfterEncrypt(c, r, top.entries[found.value].value, top'.entries[found.value].value, field.1);
      }
    }
  }

  /** The load right after encrypting succeeds exactly when every field is readable
      under the primary identity, and then it returns the original secrets. In
      particular old ciphertext of another identity or an oversized secret makes it
      fail, after the file has been rewritten. */
  lemma FirstLoad(c: Crypto, before: Disk, newKey: string, after: Disk, r: Loaded)
    requires Lawful(c) && Decodes(before.config)
    requires EnsureKey(c, before.files, newKey).Ok? && AutoEncrypt(c, before, newKey, after, r)
    ensures var id := EnsureKey(c, before.files, newKey).value.1;
            var originals := FieldValues(before.config);
            && (r.Ok? <==> forall k :: 0 <= k < |FIELDS| ==> Readable(c, id, originals[k]))
            && (r.Ok? ==> |r.value| == |FIELDS|)
            && (r.Ok? ==> forall k :: 0 <= k < |FIELDS| ==> r.value[k] == Meaning(c, id, originals[k]))
    ensures HasPlaintext(after.config) <==> HiddenPlaintext(before.config)
  {
    var id := EnsureKey(c, before.files, newKey).value.1;
    var n, m := before.config, after.config;
    DetectorAgrees(c, RecipientOf(id), n, m);
    forall k | 0 <= k < |FIELDS|
      ensures FieldValue(m, FIELDS[k]).Ok?
      ensures SealsTo(c, RecipientOf(id), FieldValues(n)[k], FieldValue(m, FIELDS[k]).value)
    {
      FieldAfterEncrypt(c, RecipientOf(id), n, m, k);
    }
    assert Decodes(m);
    var vs, ws := FieldValues(n), FieldValues(m);
    forall k | 0 <= k < |FIELDS|
      ensures Decrypt(c, id, ws[k]).Ok? <==> Readable(c, id, vs[k])
      ensures Readable(c, id, vs[k]) ==> Decrypt(c, id, ws[k]).value == Meaning(c, id, vs[k])
    {
      SealedReadsBack(c, id, vs[k], ws[k]);
    }
  }

  /** All fields are readable under the identity. */
  ghost predicate AllReadable(c: Crypto, id: Identity, vs: seq<string>) {
    forall k :: 0 <= k < |vs| ==> Readable(c, id, vs[k])
  }

  ghost predicate AllMeanings(c: Crypto, id: Identity, vs: seq<string>, secrets: seq<string>)
    requires AllReadable(c, id, vs)
  {
    |secrets| == |vs| && forall k :: 0 <= k < |vs| ==> secrets[k] == Meaning(c, id, vs[k])
  }

  /** In terms of the files: the load encrypts under the primary key, fails without a change
      exactly when that key does not parse, and otherwise has put the key into age.key and
      succeeds exactly when every field is readable under it. */
  lemma FirstLoadUses(c: Crypto, before: Disk, newKey: string, after: Disk, r: Loaded)
    requires Lawful(c) && Decodes(before.config) && AutoEncrypt(c, before, newKey, after, r)
    ensures var vs := FieldValues(before.config);
            match Primary(c, before.files, newKey)
            case None => r.Err? && after == before
            case Some(id) =>
              && KeyInPlace(before.files, newKey, after.files)
              && (r.Ok? <==> AllReadable(c, id, vs))
              && (r.Ok? ==> AllMeanings(c, id, vs, r.value))
  {
    EnsureKeyUses(c, before.files, newKey);
    if Primary(c, before.files, newKey).Some? {
      FirstLoad(c, before, newKey, after, r);
    }
  }

  /** With only a project-local key, new plaintext is encrypted under that key, which moves
      to age.key; fields that it sealed earlier are read beside it, and no other key is
      generated. */
  lemma ProjectKeyLoad(c: Crypto, before: Disk, after: Disk, r: Loaded, id: Identity)
    requires Lawful(c) && Decodes(before.config) && HasPlaintext(before.config) && AutoLoad(c, before, after, r)
    requires AGE_KEY !in before.files && PROJECT_KEY in before.files
    requires c.parse(TrimSpace(before.files[PROJECT_KEY])) == Some(id)
    ensures PROJECT_KEY !in after.files && AGE_KEY in after.files && after.files[AGE_KEY] == before.files[PROJECT_KEY]
    ensures var vs := FieldValues(before.config);
            && (r.Ok? <==> AllReadable(c, id, vs))
            && (r.Ok? ==> AllMeanings(c, id, vs, r.value))
  {
    var newKey :| AutoEncrypt(c, before, newKey, after, r);
    FirstLoadUses(c, before, newKey, after, r);
  }

  /* ---- What a load without plaintext returns ---- */

  predicate NothingSealed(n: Node)
    requires Decodes(n)
  {
    forall k | 0 <= k < |FIELDS| :: !IsEncrypted(FieldValues(n)[k])
  }

  /** The key file exists, parses and decrypts every field. */
  predicate Opens(c: Crypto, n: Node, files: Files, p: Path)
    requires Decodes(n)
  {
    && p in files && c.parse(TrimSpace(files[p])).Some?
    && forall k | 0 <= k < |FIELDS| :: Decrypt(c, c.parse(TrimSpace(files[p])).value, FieldValues(n)[k]).Ok?
  }

  lemma LoadsWhen(c: Crypto, n: Node, files: Files, p: Path)
    requires Decodes(n)
    ensures LoadWithKey(c, n, files, p).Ok? <==> NothingSealed(n) || Opens(c, n, files, p)
    ensures NothingSealed(n) ==> LoadWithKey(c, n, files, p) == Ok(FieldValues(n))
  {
  }

  /** private.key is there and may be moved. */
  predicate MayMove(c: Crypto, files: Files) {
    && PROJECT_KEY in files && c.parse(TrimSpace(files[PROJECT_KEY])).Some?
    && (Fits(files, AGE_KEY, TrimSpace(files[PROJECT_KEY])) || Fits(files, LEGACY_KEY, TrimSpace(files[PROJECT_KEY])))
  }

  /** A document with ciphertext loads exactly when age.key or legacy.age.key opens it, or
      private.key does and may be moved. What it gives is what that key file gives. */
  lemma SealedLoadWhen(c: Crypto, n: Node, files: Files)
    requires Decodes(n) && !NothingSealed(n)
    ensures var r := LoadClean(c, n, files).1;
            && (r.Ok? <==> Opens(c, n, files, AGE_KEY) || Opens(c, n, files, LEGACY_KEY)
                           || (Opens(c, n, files, PROJECT_KEY) && MayMove(c, files)))
            && (r.Ok? ==> exists p :: p in {AGE_KEY, LEGACY_KEY, PROJECT_KEY} && Opens(c, n, files, p)
                                      && r == LoadWithKey(c, n, files, p))
            && (Opens(c, n, files, AGE_KEY) ==> r == LoadWithKey(c, n, files, AGE_KEY))
  {
    MigratesWhen(c.parse, files);
    LoadsWhen(c, n, files, AGE_KEY);
    LoadsWhen(c, n, files, LEGACY_KEY);
    LoadsWhen(c, n, files, PROJECT_KEY);
    if Opens(c, n, files, PROJECT_KEY) && MayMove(c, files) {
      MovedLoads(c, n, files);
    }
  }

  lemma MovedLoads(c: Crypto, n: Node, files: Files)
    requires Decodes(n) && MayMove(c, files)
    ensures MigrateResult(c.parse, files).Some?
    ensures MigrateAndLoad(c, n, files).1 == LoadWithKey(c, n, files, PROJECT_KEY)
  {
    MigratesWhen(c.parse, files);
    var (moved, target) := MigrateResult(c.parse, files).value;
    LoadSameKeyText(c, n, files, PROJECT_KEY, moved, target);
  }

  /** A document without any ciphertext loads as it is, unless only private.key is there and
      does not parse. */
  lemma UnsealedLoadWhen(c: Crypto, n: Node, files: Files)
    requires Decodes(n) && NothingSealed(n)
    ensures var r := LoadClean(c, n, files).1;
            && (r.Ok? <==> AGE_KEY in files || PROJECT_KEY !in files || c.parse(TrimSpace(files[PROJECT_KEY])).Some?)
            && (r.Ok? ==> r == Ok(FieldValues(n)))
  {
    MigratesWhen(c.parse, files);
    LoadsWhen(c, n, files, DefaultKey(files));
    if MayMove(c, files) {
      MovedLoads(c, n, files);
    }
  }

  /** What makes a load without plaintext move private.key: it stands in for a missing
      age.key, or it alone opens the document. */
  predicate NeedsMove(c: Crypto, n: Node, files: Files)
    requires Decodes(n)
  {
    && PROJECT_KEY in files
    && if AGE_KEY !in files then NothingSealed(n) || Opens(c, n, files, PROJECT_KEY)
       else !NothingSealed(n) && Opens(c, n, files, PROJECT_KEY)
            && !Opens(c, n, files, AGE_KEY) && !Opens(c, n, files, LEGACY_KEY)
  }

  lemma NeededMove(c: Crypto, n: Node, files: Files)
    requires Decodes(n) && NeedsMove(c, n, files)
    ensures LoadClean(c, n, files) == MigrateAndLoad(c, n, files)
  {
    LoadsWhen(c, n, files, PROJECT_KEY);
    if AGE_KEY in files {
      LoadsWhen(c, n, files, AGE_KEY);
      LoadsWhen(c, n, files, LEGACY_KEY);
    }
  }

  lemma NoMove(c: Crypto, n: Node, files: Files)
    requires Decodes(n) && !NeedsMove(c, n, files)
    ensures LoadClean(c, n, files).0 == files
  {
    LoadsWhen(c, n, files, PROJECT_KEY);
    LoadsWhen(c, n, files, LEGACY_KEY);
    LoadsWhen(c, n, files, AGE_KEY);
  }

  /** The files change only by that move, when it is needed and need not be refused. */
  lemma CleanLoadMoves(c: Crypto, n: Node, files: Files)
    requires Decodes(n)
    ensures LoadClean(c, n, files).0 == if NeedsMove(c, n, files) && MayMove(c, files)
                                        then MigrateResult(c.parse, files).value.0 else files
  {
    MigratesWhen(c.parse, files);
    if NeedsMove(c, n, files) {
      NeededMove(c, n, files);
    } else {
      NoMove(c, n, files);
    }
  }

  /* ---- A second load changes nothing ---- */

  lemma {:induction false} EncryptTwice(c: Crypto, id: Identity, n: Node, m: Node, again: Node)
    requires Lawful(c)
    requires Encrypts(c, RecipientOf(id), n, m) && Encrypts(c, RecipientOf(id), m, again)
    ensures again == m
  {
    var r := RecipientOf(id);
    match n
    case Scalar(_) =>
    case Alias(_) =>
    case Mapping(es) =>
      forall i | 0 <= i < |es| ensures again.entries[i] == m.entries[i] {
        assert EncryptsEntry(c, r, es[i], m.entries[i]) && EncryptsEntry(c, r, m.entries[i], again.entries[i]);
        if !IsSecretField(es[i].key) {
          EncryptTwice(c, id, es[i].value, m.entries[i].value, again.entries[i].value);
        } else if es[i].value.Scalar? {
          SealedReadsBack(c, id, es[i].value.value, m.entries[i].value.value);
        }
      }
      assert again.entries == m.entries;
    case Sequence(items) =>
      forall i | 0 <= i < |items| ensures again.items[i] == m.items[i] {
        EncryptTwice(c, id, items[i], m.items[i], again.items[i]);
      }
      assert again.items == m.items;
    case Document(children) =>
      forall i | 0 <= i < |children| ensures again.children[i] == m.children[i] {
        EncryptTwice(c, id, children[i], m.children[i], again.children[i]);
      }
      assert again.children == m.children;
  }

  lemma LoadSameKeyText(c: Crypto, n: Node, a: Files, p: Path, b: Files, q: Path)
    requires p in a && q in b && TrimSpace(a[p]) == TrimSpace(b[q])
    ensures LoadWithKey(c, n, a, p) == LoadWithKey(c, n, b, q)
  {
  }

  /** private.key becomes the primary key. */
  lemma MovedToPrimary(c: Crypto, n: Node, files: Files)
    requires AGE_KEY !in files && LoadWithKey(c, n, files, PROJECT_KEY).Ok? && MigrateResult(c.parse, files).Some?
    ensures var (moved, target) := MigrateResult(c.parse, files).value;
            LoadClean(c, n, moved) == (moved, LoadWithKey(c, n, moved, target))
  {
    var (moved, target) := MigrateResult(c.parse, files).value;
    assert target == AGE_KEY && moved[AGE_KEY] == files[PROJECT_KEY];
    LoadSameKeyText(c, n, files, PROJECT_KEY, moved, AGE_KEY);
  }

  /** private.key goes beside a primary key that does not open the document. */
  lemma MovedToLegacy(c: Crypto, n: Node, files: Files)
    requires AGE_KEY in files && LoadWithKey(c, n, files, AGE_KEY).Err?
    requires LoadWithKey(c, n, files, PROJECT_KEY).Ok? && MigrateResult(c.parse, files).Some?
    ensures var (moved, target) := MigrateResult(c.parse, files).value;
            LoadClean(c, n, moved) == (moved, LoadWithKey(c, n, moved, target))
  {
    var (moved, target) := MigrateResult(c.parse, files).value;
    if TrimSpace(files[AGE_KEY]) == TrimSpace(files[PROJECT_KEY]) {
      LoadSameKeyText(c, n, files, AGE_KEY, files, PROJECT_KEY);
    }
    assert target == LEGACY_KEY && TrimSpace(moved[LEGACY_KEY]) == TrimSpace(files[PROJECT_KEY]);
    LoadSameKeyText(c, n, files, PROJECT_KEY, moved, LEGACY_KEY);
    LoadSameKeyText(c, n, files, AGE_KEY, moved, AGE_KEY);
  }

  /** The migration a clean load performs keeps the loaded secrets and is not repeated. */
  lemma CleanLoadSettles(c: Crypto, n: Node, files: Files)
    requires LoadClean(c, n, files).1.Ok?
    ensures var (moved, r) := LoadClean(c, n, files);
            LoadClean(c, n, moved) == (moved, r)
  {
    if LoadClean(c, n, files).0 != files {
      if AGE_KEY in files {
        MovedToLegacy(c, n, files);
      } else {
        MovedToPrimary(c, n, files);
      }
    }
  }

  /** After a successful load, loading again changes neither the configuration nor a
      key file and returns the same secrets. */
  lemma SecondLoadIsStable(c: Crypto, before: Disk, after: Disk, r: Loaded, again: Disk, r2: Loaded)
    requires Lawful(c)
    requires AutoLoad(c, before, after, r) && r.Ok?
    requires AutoLoad(c, after, again, r2)
    ensures again == after && r2 == r
  {
    if !HasPlaintext(before.config) {
      CleanLoadSettles(c, before.config, before.files);
    } else {
      var newKey :| AutoEncrypt(c, before, newKey, after, r);
      var (files, id) := EnsureKey(c, before.files, newKey).value;
      if HasPlaintext(after.config) {
        var newKey2 :| AutoEncrypt(c, after, newKey2, again, r2);
        assert EnsureKey(c, after.files, newKey2).value == (files, id);
        EncryptTwice(c, id, before.config, after.config, again.config);
      }
    }
  }

  /** No key file at hand opens every field: each identity fails on one of them. */
  lemma LoadLockedOut(c: Crypto, n: Node, files: Files, id: Identity, legacy: Identity, older: nat, newer: nat)
    requires Decodes(n) && older < |FIELDS| && newer < |FIELDS|
    requires AGE_KEY in files && c.parse(TrimSpace(files[AGE_KEY])) == Some(id)
    requires LEGACY_KEY in files ==> c.parse(TrimSpace(files[LEGACY_KEY])) == Some(legacy)
    requires PROJECT_KEY !in files
    requires Decrypt(c, id, FieldValues(n)[older]).Err? && Decrypt(c, legacy, FieldValues(n)[newer]).Err?
    ensures LoadClean(c, n, files).0 == files && LoadClean(c, n, files).1.Err?
  {
    assert IsEncrypted(FieldValues(n)[older]);
  }

  /** The failing family of FirstLoad does not recover: when one field holds
      ciphertext only the legacy identity opens, encrypting new plaintext under the
      primary identity leaves a file that no later load can read. */
  lemma MixedIdentitiesLockOut(c: Crypto, before: Disk, newKey: string, after: Disk, r: Loaded,
                               legacy: Identity, older: nat, newer: nat, again: Disk, r2: Loaded)
    requires Lawful(c) && Decodes(before.config) && !HiddenPlaintext(before.config)
    requires EnsureKey(c, before.files, newKey).Ok? && AutoEncrypt(c, before, newKey, after, r)
    requires PROJECT_KEY !in after.files
    requires LEGACY_KEY in after.files ==> c.parse(TrimSpace(after.files[LEGACY_KEY])) == Some(legacy)
    requires var id := EnsureKey(c, before.files, newKey).value.1;
             var vs := FieldValues(before.config);
             && older < |FIELDS| && newer < |FIELDS|
             && IsEncrypted(vs[older]) && c.open(id, Body(vs[older])).None?
             && Plaintext(vs[newer])
             && forall nonce :: c.open(legacy, c.seal(RecipientOf(id), vs[newer], nonce)).None?
    requires AutoLoad(c, after, again, r2)
    ensures r.Err? && r2.Err? && again == after
  {
    FirstLoad(c, before, newKey, after, r);
    var id := EnsureKey(c, before.files, newKey).value.1;
    var vs := FieldValues(before.config);
    assert !Plaintext(vs[older]);
    forall k | 0 <= k < |FIELDS| ensures FieldValue(after.config, FIELDS[k]).Ok? {
      FieldAfterEncrypt(c, RecipientOf(id), before.config, after.config, k);
    }
    var ws := FieldValues(after.config);
    FieldAfterEncrypt(c, RecipientOf(id), before.config, after.config, older);
    FieldAfterEncrypt(c, RecipientOf(id), before.config, after.config, newer);
    var nonce: nat :| ws[newer] == Sealed(c, RecipientOf(id), vs[newer], nonce);
    LoadLockedOut(c, after.config, after.files, id, legacy, older, newer);
  }

  /* ---- Aliases ---- */

  /** An alias stands for the node its anchor names. */
  function Resolve(anchors: map<string, Node>, n: Node): Node {
    if n.Alias? && n.anchor in anchors then anchors[n.anchor] else n
  }

  /** The value of a field as the decoder finds it, also in a section that is an alias. */
  function ValueNode(anchors: map<string, Node>, n: Node, field: (string, string)): Option<Node> {
    if !n.Document? || n.children == [] || !n.children[0].Mapping? then None
    else
      match Find(n.children[0].entries, field.0)
      case None => None
      case Some(i) =>
        var section := Resolve(anchors, n.children[0].entries[i].value);
        if !section.Mapping? then None
        else
          match Find(section.entries, field.1)
          case None => None
          case Some(j) => Some(section.entries[j].value)
  }

  predicate PlainScalar(n: Node) {
    n.Scalar? && Plaintext(n.value)
  }

  /** The decoder reads plaintext for the field. */
  predicate StandsInPlaintext(anchors: map<string, Node>, n: Node, field: (string, string)) {
    match ValueNode(anchors, n, field)
    case None => false
    case Some(v) => PlainScalar(Resolve(anchors, v))
  }

  predicate IsAliased(anchors: map<string, Node>, n: Node, field: (string, string)) {
    match ValueNode(anchors, n, field)
    case None => false
    case Some(v) => v.Alias?
  }

  /** Anchors name nodes of the document. */
  ghost predicate AnchoredIn(anchors: map<string, Node>, n: Node) {
    forall a :: a in anchors ==> exists path :: At(n, path) == Some(anchors[a])
  }

  lemma {:induction false} ReportedBelow(n: Node, path: seq<nat>)
    requires At(n, path).Some? && HasPlaintext(At(n, path).value)
    ensures HasPlaintext(n)
    decreases |path|
  {
    if path != [] {
      var i := path[0];
      if n.Mapping? {
        assert Children(n)[i] == n.entries[i].value;
      }
      ReportedBelow(Children(n)[i], path[1..]);
    }
  }

  lemma PlaintextIsReported(anchors: map<string, Node>, n: Node, k: nat)
    requires k < |FIELDS| && AnchoredIn(anchors, n)
    requires StandsInPlaintext(anchors, n, FIELDS[k]) && !IsAliased(anchors, n, FIELDS[k])
    ensures HasPlaintext(n)
  {
    var i := Find(n.children[0].entries, FIELDS[k].0).value;
    var value := n.children[0].entries[i].value;
    var section := Resolve(anchors, value);
    var j := Find(section.entries, FIELDS[k].1).value;
    assert IsSecretField(section.entries[j].key);
    assert HasPlaintext(section);
    if section != value {
      var path :| At(n, path) == Some(section);
      ReportedBelow(n, path);
    } else {
      assert HasPlaintext(n.children[0]);
    }
  }

  /** When nothing is reported a field stands in plaintext exactly when its value is an
      alias of a plaintext scalar: the detector does not follow aliases. */
  lemma OnlyAliasesEscape(anchors: map<string, Node>, n: Node, k: nat)
    requires k < |FIELDS| && !HasPlaintext(n) && AnchoredIn(anchors, n)
    ensures StandsInPlaintext(anchors, n, FIELDS[k])
            <==> IsAliased(anchors, n, FIELDS[k]) && PlainScalar(Resolve(anchors, ValueNode(anchors, n, FIELDS[k]).value))
  {
    if StandsInPlaintext(anchors, n, FIELDS[k]) && !IsAliased(anchors, n, FIELDS[k]) {
      PlaintextIsReported(anchors, n, k);
    }
  }

  /** Such documents exist, and loading leaves them as they are. */
  lemma AliasedSecretStays(c: Crypto, secret: string, files: Files, after: Disk, r: Loaded)
    requires Plaintext(secret)
    ensures var anchors := map["shared" := Scalar(secret)];
            var n := AliasedPassword(secret);
            && AnchoredIn(anchors, n) && StandsInPlaintext(anchors, n, FIELDS[0])
            && (AutoLoad(c, Disk(n, files), after, r) ==> after.config == n)
  {
    AliasedPasswordIsRead(secret);
    AliasedPasswordAnchor(secret);
    AliasedPasswordUnreported(secret);
  }

  lemma AliasedPasswordAnchor(secret: string)
    ensures At(AliasedPassword(secret), [0, 0]) == Some(Scalar(secret))
  {
    var top := AliasedPassword(secret).children[0];
    assert Children(top)[0] == Scalar(secret);
    assert At(top, [0]) == Some(Scalar(secret)) && [0, 0][1..] == [0];
  }

  lemma AliasedPasswordUnreported(secret: string)
    ensures !HasPlaintext(AliasedPassword(secret))
  {
    var top := AliasedPassword(secret).children[0];
    assert !HasPlaintext(top.entries[0].value) && !HasPlaintext(top.entries[1].value);
    assert !HasPlaintext(top);
  }

  lemma AliasedPasswordIsRead(secret: string)
    ensures ValueNode(map["shared" := Scalar(secret)], AliasedPassword(secret), FIELDS[0]) == Some(Alias("shared"))
  {
    var entries := AliasedPassword(secret).children[0].entries;
    assert Find(entries[1..], "database") == Some(0);
    assert Find(entries, "database") == Some(1);
    assert FIELDS[0] == ("database", "password");
  }

  /** A password given once, under a key that is not secret, and used by an alias. */
  function AliasedPassword(secret: string): Node {
    Document([Mapping([Entry("shared", Scalar(secret)),
                       Entry("database", Mapping([Entry("password", Alias("shared"))]))])])
  }
}
