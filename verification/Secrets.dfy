/** Encrypting the secret fields of config.yaml in place, detecting plaintext ones
    and loading them again (internal/config/secrets.go, internal/config/config.go). */
module Secrets {
  import opened Wrappers
  import opened Text
  import opened KeyFiles

  /** A parsed YAML document. Keys are the scalar text of the key nodes. */
  datatype Node =
    | Scalar(value: string)
    | Mapping(entries: seq<Entry>)
    | Sequence(items: seq<Node>)
    | Document(children: seq<Node>)
    | Alias(anchor: string)

  datatype Entry = Entry(key: string, value: Node)

  /** age and base64 together: seal gives the base64 text of a ciphertext, which
      differs from call to call (the nonce), and open reads it back. */
  datatype Crypto = Crypto(
    seal: (Recipient, string, nat) -> string,
    open: (Identity, string) -> Option<string>,
    parse: Parser)

  /** Whoever holds the identity can open what was sealed for it. */
  ghost predicate Lawful(c: Crypto) {
    forall id, v, nonce :: c.open(id, c.seal(RecipientOf(id), v, nonce)) == Some(v)
  }

  const ENC_PREFIX := "ENC[age,"
  const ENC_SUFFIX := "]"
  const MAX_SECRET_SIZE := 64 * 1024

  predicate IsEncrypted(value: string) {
    ENC_PREFIX <= value && HasSuffix(value, ENC_SUFFIX)
  }

  function Envelope(body: string): (e: string)
    ensures IsEncrypted(e) && Body(e) == body && TrimSpace(e) != ""
  {
    var e := ENC_PREFIX + body + ENC_SUFFIX;
    assert e[0] == 'E' && e[|e| - 1] == ']';
    TrimmedIsFixed(e);
    e
  }

  function Body(value: string): string
    requires IsEncrypted(value)
  {
    assert value[7] == ',';
    value[|ENC_PREFIX|..|value| - |ENC_SUFFIX|]
  }

  predicate Blank(value: string) {
    TrimSpace(value) == ""
  }

  /** A value the encrypter must replace. */
  predicate Plaintext(value: string) {
    !Blank(value) && !IsEncrypted(value)
  }

  datatype Failure =
    | Undecodable
    | TooLarge
    | KeyMissing
    | KeyUnreadable
    | Malformed
    | KeyRefused

  function Decrypt(c: Crypto, id: Identity, value: string): Result<string, Failure> {
    if !IsEncrypted(value) then Ok(value)
    else
      match c.open(id, Body(value))
      case None => Err(Undecodable)
      case Some(v) => if Utf8Len(v) > MAX_SECRET_SIZE then Err(TooLarge) else Ok(v)
  }

  predicate IsSecretField(name: string) {
    name in {"password", "root_password", "exporter_password", "admin_password", "provisioner_password", "secret_key"}
  }

  /** The detector: it also looks below a secret key. */
  predicate HasPlaintext(n: Node) {
    match n
    case Scalar(_) => false
    case Alias(_) => false
    case Mapping(es) =>
      exists i | 0 <= i < |es| ::
        || (IsSecretField(es[i].key) && es[i].value.Scalar? && Plaintext(es[i].value.value))
        || HasPlaintext(es[i].value)
    case Sequence(items) => exists i | 0 <= i < |items| :: HasPlaintext(items[i])
    case Document(children) => exists i | 0 <= i < |children| :: HasPlaintext(children[i])
  }

  function Sealed(c: Crypto, r: Recipient, value: string, nonce: nat): string {
    Envelope(c.seal(r, value, nonce))
  }

  /** The possible outcomes of encrypting one secret scalar. */
  ghost predicate SealsTo(c: Crypto, r: Recipient, before: string, after: string) {
    if Plaintext(before) then exists nonce: nat :: after == Sealed(c, r, before, nonce)
    else after == before
  }

  /** The possible outcomes of the encrypter on a tree: it replaces the scalars under
      secret keys and does not descend below those keys. */
  ghost predicate Encrypts(c: Crypto, r: Recipient, n: Node, m: Node) {
    match n
    case Scalar(_) => m == n
    case Alias(_) => m == n
    case Mapping(es) =>
      && m.Mapping? && |m.entries| == |es|
      && forall i :: 0 <= i < |es| ==> EncryptsEntry(c, r, es[i], m.entries[i])
    case Sequence(items) =>
      && m.Sequence? && |m.items| == |items|
      && forall i :: 0 <= i < |items| ==> Encrypts(c, r, items[i], m.items[i])
    case Document(children) =>
      && m.Document? && |m.children| == |children|
      && forall i :: 0 <= i < |children| ==> Encrypts(c, r, children[i], m.children[i])
  }

  ghost predicate EncryptsEntry(c: Crypto, r: Recipient, e: Entry, f: Entry) {
    && f.key == e.key
    && if IsSecretField(e.key) then SealsNode(c, r, e.value, f.value) else Encrypts(c, r, e.value, f.value)
  }

  /** Below a secret key only the text of a scalar changes. */
  ghost predicate SealsNode(c: Crypto, r: Recipient, n: Node, m: Node) {
    if n.Scalar? then m.Scalar? && SealsTo(c, r, n.value, m.value) else m == n
  }

  /* ---- Only the secret scalars change ---- */

  function Children(n: Node): seq<Node> {
    match n
    case Mapping(es) => seq(|es|, i requires 0 <= i < |es| => es[i].value)
    case Sequence(items) => items
    case Document(children) => children
    case _ => []
  }

  /** The node a list of child positions leads to. */
  function At(n: Node, path: seq<nat>): Option<Node>
    decreases |path|
  {
    if path == [] then Some(n)
    else if path[0] < |Children(n)| then At(Children(n)[path[0]], path[1..])
    else None
  }

  /** The path ends at a scalar directly under a secret key, and no earlier step
      goes below a secret key. */
  predicate LeadsToSecret(n: Node, path: seq<nat>)
    decreases |path|
  {
    if path == [] || path[0] >= |Children(n)| then false
    else
      var underSecretKey := n.Mapping? && IsSecretField(n.entries[path[0]].key);
      if |path| == 1 then underSecretKey && Children(n)[path[0]].Scalar?
      else !underSecretKey && LeadsToSecret(Children(n)[path[0]], path[1..])
  }

  /** The same node apart from its text and what lies below it. */
  predicate SameShape(a: Node, b: Node) {
    && (a.Scalar? <==> b.Scalar?) && (a.Mapping? <==> b.Mapping?) && (a.Sequence? <==> b.Sequence?)
    && (a.Document? <==> b.Document?)
    && (a.Alias? ==> a == b)
    && |Children(a)| == |Children(b)|
    && (a.Mapping? ==> forall i :: 0 <= i < |a.entries| ==> a.entries[i].key == b.entries[i].key)
  }

  /** The encrypter keeps the tree and every node in it, except that scalars directly
      under secret keys are sealed. */
  lemma {:induction false} OnlySecretsChange(c: Crypto, r: Recipient, n: Node, m: Node, path: seq<nat>)
    requires Encrypts(c, r, n, m)
    ensures At(n, path).Some? <==> At(m, path).Some?
    ensures At(n, path).Some? ==> SameShape(At(n, path).value, At(m, path).value)
    ensures At(n, path).Some? && At(n, path).value.Scalar? ==>
              if LeadsToSecret(n, path) then SealsTo(c, r, At(n, path).value.value, At(m, path).value.value)
              else At(m, path) == At(n, path)
    decreases |path|
  {
    assert SameShape(n, m);
    if path != [] && path[0] < |Children(n)| {
      var i := path[0];
      if n.Mapping? && IsSecretField(n.entries[i].key) {
        assert EncryptsEntry(c, r, n.entries[i], m.entries[i]);
        if |path| > 1 {
          SamePathSameNode(Children(n)[i], Children(m)[i], path[1..]);
        }
      } else {
        if n.Mapping? {
          assert EncryptsEntry(c, r, n.entries[i], m.entries[i]);
        }
        OnlySecretsChange(c, r, Children(n)[i], Children(m)[i], path[1..]);
      }
    }
  }

  lemma SamePathSameNode(n: Node, m: Node, path: seq<nat>)
    requires path != []
    requires n == m || (n.Scalar? && m.Scalar?)
    ensures At(n, path) == At(m, path)
  {
  }

  /* ---- The detector and the encrypter ---- */

  /** Plaintext the detector finds below a secret key whose value is not a scalar:
      the encrypter never reaches it. */
  ghost predicate HiddenPlaintext(n: Node) {
    match n
    case Scalar(_) => false
    case Alias(_) => false
    case Mapping(es) =>
      exists i :: 0 <= i < |es| &&
        if IsSecretField(es[i].key) then !es[i].value.Scalar? && HasPlaintext(es[i].value)
        else HiddenPlaintext(es[i].value)
    case Sequence(items) => exists i :: 0 <= i < |items| && HiddenPlaintext(items[i])
    case Document(children) => exists i :: 0 <= i < |children| && HiddenPlaintext(children[i])
  }

  /** After encrypting, the detector still reports plaintext exactly when some lies
      hidden below a secret key. */
  lemma {:induction false} DetectorAgrees(c: Crypto, r: Recipient, n: Node, m: Node)
    requires Encrypts(c, r, n, m)
    ensures HasPlaintext(m) <==> HiddenPlaintext(n)
  {
    match n
    case Scalar(_) =>
    case Alias(_) =>
    case Mapping(es) =>
      forall i | 0 <= i < |es|
        ensures (var f := m.entries[i];
                 (IsSecretField(f.key) && f.value.Scalar? && Plaintext(f.value.value)) || HasPlaintext(f.value))
                <==> if IsSecretField(es[i].key) then !es[i].value.Scalar? && HasPlaintext(es[i].value)
                     else HiddenPlaintext(es[i].value)
      {
        assert EncryptsEntry(c, r, es[i], m.entries[i]);
        if !IsSecretField(es[i].key) {
          DetectorAgrees(c, r, es[i].value, m.entries[i].value);
        }
      }
    case Sequence(items) =>
      forall i | 0 <= i < |items| ensures HasPlaintext(m.items[i]) <==> HiddenPlaintext(items[i]) {
        DetectorAgrees(c, r, items[i], m.items[i]);
      }
    case Document(children) =>
      forall i | 0 <= i < |children| ensures HasPlaintext(m.children[i]) <==> HiddenPlaintext(children[i]) {
        DetectorAgrees(c, r, children[i], m.children[i]);
      }
  }

  /** The document can be encrypted, and is reported as plaintext after every encryption. */
  ghost predicate StaysReported(c: Crypto, r: Recipient, n: Node) {
    (exists m :: Encrypts(c, r, n, m)) && forall m | Encrypts(c, r, n, m) :: HasPlaintext(m)
  }

  lemma DetectorNeedNotAgree(c: Crypto, r: Recipient)
    ensures exists n :: StaysReported(c, r, n)
  {
    var n := Mapping([Entry("password", Mapping([Entry("admin_password", Scalar("x"))]))]);
    NestedSecretIsHidden(n);
    assert EncryptsEntry(c, r, n.entries[0], n.entries[0]);
    assert Encrypts(c, r, n, n);
    forall m | Encrypts(c, r, n, m) ensures HasPlaintext(m) {
      DetectorAgrees(c, r, n, m);
    }
    assert StaysReported(c, r, n);
  }

  lemma NestedSecretIsHidden(n: Node)
    requires n == Mapping([Entry("password", Mapping([Entry("admin_password", Scalar("x"))]))])
    ensures HiddenPlaintext(n)
  {
    var inner := n.entries[0].value;
    assert inner.entries[0].value == Scalar("x");
    assert IsSecretField(inner.entries[0].key) && Plaintext("x") by { TrimmedIsFixed("x"); }
    assert HasPlaintext(inner);
  }

  /** Where the detector finds nothing the encrypter changes nothing. */
  lemma {:induction false} EncryptedIsFixed(c: Crypto, r: Recipient, n: Node, m: Node)
    requires Encrypts(c, r, n, m) && !HasPlaintext(n)
    ensures m == n
  {
    match n
    case Scalar(_) =>
    case Alias(_) =>
    case Mapping(es) =>
      forall i | 0 <= i < |es| ensures m.entries[i] == es[i] {
        assert EncryptsEntry(c, r, es[i], m.entries[i]);
        if !IsSecretField(es[i].key) {
          EncryptedIsFixed(c, r, es[i].value, m.entries[i].value);
        }
      }
      assert m.entries == es;
    case Sequence(items) =>
      forall i | 0 <= i < |items| ensures m.items[i] == items[i] {
        EncryptedIsFixed(c, r, items[i], m.items[i]);
      }
      assert m.items == items;
    case Document(children) =>
      forall i | 0 <= i < |children| ensures m.children[i] == children[i] {
        EncryptedIsFixed(c, r, children[i], m.children[i]);
      }
      assert m.children == children;
  }
}
