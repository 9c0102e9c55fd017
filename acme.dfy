/** The ACME DNS-01 orchestration of network/acme.go: key and account persistence,
    per-domain authorization through a TXT record, certificate issuance and the
    startup check. The CA, the DNS reconciler, key generation, PEM, x509 and JSON
    are oracles; the work directory is a map from path to bytes. */
module Acme {
  import opened Base
  import Dns

  type Bytes = seq<byte>
  type Path = string

  const KeyType: string := "EC PRIVATE KEY"
  const AccountFilename: string := "account.json"
  const KeyFilename: string := "account.key"
  const StatusValid: string := "valid"
  /** Requested certificate lifetime: 90 days. */
  const CertValidityHours: nat := 90 * 24

  /** The files of the file system; writing a path in `unwritable` fails. */
  datatype Fs = Fs(files: map<Path, Bytes>, unwritable: set<Path>)

  datatype PemBlock = PemBlock(blockType: string, bytes: Bytes)

  /** A P-256 private key, known by its scalar. */
  datatype Key = Key(d: nat)

  /** A CA account registration record. */
  datatype Account = Account(uri: string)

  /** The fields of an x509 certificate request that the code sets. */
  datatype Csr = Csr(commonName: string, dnsNames: seq<string>)

  datatype Challenge = Challenge(ctype: string, token: string, uri: string)
  datatype Authorization = Authorization(status: string, uri: string, challenges: seq<Challenge>)

  /** Encodings and path handling, as oracles. */
  datatype Codec = Codec(
    join: (Path, string) -> Path,
    pemDecode: Bytes -> Option<PemBlock>,
    pemEncode: PemBlock -> Bytes,
    parseEcKey: Bytes -> Result<Key, Error>,
    marshalEcKey: Key -> Result<Bytes, Error>,
    decodeAccount: Bytes -> Result<Account, Error>,
    encodeAccount: Account -> Result<Bytes, Error>,
    createCsr: (Csr, Key) -> Result<Bytes, Error>)

  /** The CA and the DNS reconciler, as oracles: the answer each call would get. */
  datatype Ca = Ca(
    register: Result<Account, Error>,
    authorize: string -> Result<Authorization, Error>,
    challengeRecord: string -> Result<string, Error>,
    updateDns: Dns.RecordSet -> Option<Error>,
    accept: Challenge -> Option<Error>,
    waitAuthorization: string -> Option<Error>,
    createCert: Bytes -> Result<seq<Bytes>, Error>)

  /** The interactions with the CA, the DNS reconciler and the key generator, in order. */
  datatype Event =
    | Register
    | GenerateKey(path: Path)
    | Authorize(domain: string)
    | ChallengeRecord(token: string)
    | UpdateDns(rrs: Dns.RecordSet, waitPropagation: bool)
    | Accept(challenge: Challenge)
    | WaitAuthorization(uri: string)
    | CreateCert(csr: Bytes, validityHours: nat)

  // ---------------------------------------------------------------------------
  // Keys

  /** `readKey`: the key in the first PEM block of the file, which must be an EC key. */
  function ReadKey(fs: Fs, c: Codec, path: Path): (r: Result<Key, Error>)
    ensures r.Ok? <==>
      && path in fs.files && c.pemDecode(fs.files[path]).Some?
      && c.pemDecode(fs.files[path]).value.blockType == KeyType
      && c.parseEcKey(c.pemDecode(fs.files[path]).value.bytes).Ok?
    ensures r.Ok? ==> r == c.parseEcKey(c.pemDecode(fs.files[path]).value.bytes)
    ensures path in fs.files && c.pemDecode(fs.files[path]).None? ==>
      r == Err(Error("Key block not found in \"" + path + "\""))
  {
    if path !in fs.files then Err(Error("open " + path + ": no such file or directory"))
    else match c.pemDecode(fs.files[path])
      case None => Err(Error("Key block not found in \"" + path + "\""))
      case Some(block) =>
        if block.blockType == KeyType then c.parseEcKey(block.bytes)
        else Err(Error("Key block type \"" + block.blockType + "\" is not supported"))
  }

  /** `writeKey`: opening truncates the file; the PEM block is written only when the
      key marshals. */
  function WriteKey(fs: Fs, c: Codec, path: Path, k: Key): (r: (Fs, Option<Error>))
    ensures r.1.None? <==> path !in fs.unwritable && c.marshalEcKey(k).Ok?
    ensures r.1.None? ==> r.0 == fs.(files := fs.files[path := c.pemEncode(PemBlock(KeyType, c.marshalEcKey(k).value))])
    ensures path in fs.unwritable ==> r.0 == fs
    ensures r.0.unwritable == fs.unwritable
    ensures forall p :: p != path ==> (p in r.0.files <==> p in fs.files) && (p in fs.files ==> r.0.files[p] == fs.files[p])
  {
    if path in fs.unwritable then (fs, Some(Error("open " + path + ": permission denied")))
    else
      var truncated := fs.(files := fs.files[path := []]);
      match c.marshalEcKey(k)
      case Err(e) => (truncated, Some(e))
      case Ok(der) => (fs.(files := fs.files[path := c.pemEncode(PemBlock(KeyType, der))]), None)
  }

  /** The result of `readOrCreateKey`: Go returns a key and an error together. */
  datatype KeyOutcome = KeyOutcome(key: Option<Key>, err: Option<Error>, fs: Fs, events: seq<Event>)

  /** `readOrCreateKey`: the readable key, or else a fresh key that is written out; the
      write error comes back together with the fresh key. */
  function ReadOrCreateKey(fs: Fs, c: Codec, generate: Path -> Result<Key, Error>, path: Path): (r: KeyOutcome)
    ensures ReadKey(fs, c, path).Ok? ==> r == KeyOutcome(Some(ReadKey(fs, c, path).value), None, fs, [])
    ensures ReadKey(fs, c, path).Err? ==> r.events == [GenerateKey(path)]
    ensures ReadKey(fs, c, path).Err? && generate(path).Err? ==>
      r.key == None && r.err == Some(generate(path).error) && r.fs == fs
    ensures ReadKey(fs, c, path).Err? && generate(path).Ok? ==>
      r.key == Some(generate(path).value) && (r.fs, r.err) == WriteKey(fs, c, path, generate(path).value)
    ensures r.err.None? ==> r.key.Some?
  {
    match ReadKey(fs, c, path)
    case Ok(k) => KeyOutcome(Some(k), None, fs, [])
    case Err(_) =>
      match generate(path)
      case Err(e) => KeyOutcome(None, Some(e), fs, [GenerateKey(path)])
      case Ok(k) =>
        var (fs', werr) := WriteKey(fs, c, path, k);
        KeyOutcome(Some(k), werr, fs', [GenerateKey(path)])
  }

  /** The PEM decoder and the EC parser invert their encoders. */
  ghost predicate KeyCodecRoundTrips(c: Codec)
  {
    && (forall b :: c.pemDecode(c.pemEncode(b)) == Some(b))
    && (forall k, der :: c.marshalEcKey(k) == Ok(der) ==> c.parseEcKey(der) == Ok(k))
  }

  /** A key that was generated and written successfully is read back unchanged, so the
      next start neither generates nor writes (network/acme.go:76-87). */
  lemma CreatedKeyIsReused(fs: Fs, c: Codec, generate: Path -> Result<Key, Error>, path: Path)
    requires KeyCodecRoundTrips(c)
    requires ReadOrCreateKey(fs, c, generate, path).err.None?
    ensures var first := ReadOrCreateKey(fs, c, generate, path);
      ReadOrCreateKey(first.fs, c, generate, path) == KeyOutcome(first.key, None, first.fs, [])
  {
    var first := ReadOrCreateKey(fs, c, generate, path);
    if ReadKey(fs, c, path).Err? {
      var k := generate(path).value;
      var der := c.marshalEcKey(k).value;
      assert c.pemDecode(c.pemEncode(PemBlock(KeyType, der))) == Some(PemBlock(KeyType, der));
      assert ReadKey(first.fs, c, path) == Ok(k);
    }
  }

  // ---------------------------------------------------------------------------
  // Account

  /** `readAccount`: the JSON-decoded account file. */
  function ReadAccount(fs: Fs, c: Codec, path: Path): (r: Result<Account, Error>)
    ensures r.Ok? <==> path in fs.files && c.decodeAccount(fs.files[path]).Ok?
    ensures r.Ok? ==> r == c.decodeAccount(fs.files[path])
  {
    if path !in fs.files then Err(Error("open " + path + ": no such file or directory"))
    else c.decodeAccount(fs.files[path])
  }

  /** `writeAccount`: the JSON encoding, written only when encoding succeeds. */
  function WriteAccount(fs: Fs, c: Codec, path: Path, a: Account): (r: (Fs, Option<Error>))
    ensures r.1.None? <==> c.encodeAccount(a).Ok? && path !in fs.unwritable
    ensures r.1.None? ==> r.0 == fs.(files := fs.files[path := c.encodeAccount(a).value])
    ensures r.1.Some? ==> r.0 == fs
  {
    match c.encodeAccount(a)
    case Err(e) => (fs, Some(e))
    case Ok(b) =>
      if path in fs.unwritable then (fs, Some(Error("open " + path + ": permission denied")))
      else (fs.(files := fs.files[path := b]), None)
  }

  /** The ACME client as `NewACMEClient` sets it up. */
  datatype AcmeClient = AcmeClient(workDirectory: Path, key: Key, account: Account)

  /** The result of `NewACMEClient`: a client and an error can come back together. */
  datatype ClientOutcome = ClientOutcome(client: Option<AcmeClient>, err: Option<Error>, fs: Fs, events: seq<Event>)

  /** `NewACMEClient`: creates the directory (`mkdir` is the outcome of that), reads or
      creates the account key, then reuses the stored account or registers a new one
      and stores it. */
  function NewAcmeClient(fs: Fs, c: Codec, ca: Ca, generate: Path -> Result<Key, Error>, mkdir: Option<Error>,
                         dir: Path): (r: ClientOutcome)
    ensures mkdir.Some? ==> r == ClientOutcome(None, mkdir, fs, [])
    ensures r.err.None? ==> r.client.Some? && r.client.value.workDirectory == dir
    ensures (Register in r.events) <==>
      mkdir.None? &&
      ReadOrCreateKey(fs, c, generate, c.join(dir, KeyFilename)).err.None? &&
      ReadAccount(ReadOrCreateKey(fs, c, generate, c.join(dir, KeyFilename)).fs, c, c.join(dir, AccountFilename)).Err?
    ensures mkdir.None? && ReadOrCreateKey(fs, c, generate, c.join(dir, KeyFilename)).err.Some? ==>
      r.client.None? && r.err == ReadOrCreateKey(fs, c, generate, c.join(dir, KeyFilename)).err
    ensures Register in r.events && ca.register.Err? ==> r.client.None? && r.err == Some(ca.register.error)
    ensures Register in r.events && ca.register.Ok? ==>
      r.client.Some? && r.client.value.account == ca.register.value &&
      (r.fs, r.err) == WriteAccount(ReadOrCreateKey(fs, c, generate, c.join(dir, KeyFilename)).fs, c,
        c.join(dir, AccountFilename), ca.register.value)
    ensures r.client.Some? ==>
      r.client.value.key == ReadOrCreateKey(fs, c, generate, c.join(dir, KeyFilename)).key.value
    ensures var ko := ReadOrCreateKey(fs, c, generate, c.join(dir, KeyFilename));
      var stored := ReadAccount(ko.fs, c, c.join(dir, AccountFilename));
      mkdir.None? && ko.err.None? && stored.Ok? ==>
        r == ClientOutcome(Some(AcmeClient(dir, ko.key.value, stored.value)), None, ko.fs, ko.events)
  {
    if mkdir.Some? then ClientOutcome(None, mkdir, fs, [])
    else
    var ko := ReadOrCreateKey(fs, c, generate, c.join(dir, KeyFilename));
    if ko.err.Some? then ClientOutcome(None, ko.err, ko.fs, ko.events)
    else
      var accountPath := c.join(dir, AccountFilename);
      match ReadAccount(ko.fs, c, accountPath)
      case Ok(a) => ClientOutcome(Some(AcmeClient(dir, ko.key.value, a)), None, ko.fs, ko.events)
      case Err(_) =>
        match ca.register
        case Err(e) => ClientOutcome(None, Some(e), ko.fs, ko.events + [Register])
        case Ok(a) =>
          var (fs', werr) := WriteAccount(ko.fs, c, accountPath, a);
          ClientOutcome(Some(AcmeClient(dir, ko.key.value, a)), werr, fs', ko.events + [Register])
  }

  /** The JSON decoder inverts the encoder. */
  ghost predicate AccountCodecRoundTrips(c: Codec)
  {
    forall a, b :: c.encodeAccount(a) == Ok(b) ==> c.decodeAccount(b) == Ok(a)
  }

  /** Two sequential setups against the same directory register once: the second one
      reads back the stored key and account and makes no CA or generator call. */
  lemma AccountIsReused(fs: Fs, c: Codec, ca: Ca, generate: Path -> Result<Key, Error>, dir: Path)
    requires KeyCodecRoundTrips(c) && AccountCodecRoundTrips(c)
    requires c.join(dir, KeyFilename) != c.join(dir, AccountFilename)
    requires NewAcmeClient(fs, c, ca, generate, None, dir).err.None?
    ensures var first := NewAcmeClient(fs, c, ca, generate, None, dir);
      var second := NewAcmeClient(first.fs, c, ca, generate, None, dir);
      second == ClientOutcome(first.client, None, first.fs, [])
  {
    var keyPath, accountPath := c.join(dir, KeyFilename), c.join(dir, AccountFilename);
    var ko := ReadOrCreateKey(fs, c, generate, keyPath);
    CreatedKeyIsReused(fs, c, generate, keyPath);
    var first := NewAcmeClient(fs, c, ca, generate, None, dir);
    assert ReadKey(first.fs, c, keyPath) == ReadKey(ko.fs, c, keyPath);
  }

  // ---------------------------------------------------------------------------
  // Paths

  /** `GetDomainsCertpairPath`: the certificate and key paths for a domain list. */
  function CertpairPath(c: Codec, workDirectory: Path, domains: seq<string>): (paths: (Path, Path))
    requires |domains| > 0
    ensures paths.0 == c.join(workDirectory, domains[0]) + ".crt"
    ensures paths.1 == c.join(workDirectory, domains[0]) + ".key"
  {
    var prefix := c.join(workDirectory, domains[0]);
    (prefix + ".crt", prefix + ".key")
  }

  /** The certificate and key paths never coincide and depend only on the primary domain. */
  lemma CertpairPathsDistinct(c: Codec, workDirectory: Path, domains: seq<string>, others: seq<string>)
    requires |domains| > 0 && |others| > 0 && others[0] == domains[0]
    ensures CertpairPath(c, workDirectory, domains).0 != CertpairPath(c, workDirectory, domains).1
    ensures CertpairPath(c, workDirectory, domains) == CertpairPath(c, workDirectory, others)
  {
    var (crt, key) := CertpairPath(c, workDirectory, domains);
    assert crt[|crt| - 1] != key[|key| - 1];
  }

  // ---------------------------------------------------------------------------
  // Authorization

  /** Index of the first challenge of type "dns-01", if any. */
  function FirstDns01(challenges: seq<Challenge>): (r: Option<nat>)
    ensures r.Some? ==>
      && r.value < |challenges| && challenges[r.value].ctype == "dns-01"
      && forall j :: 0 <= j < r.value ==> challenges[j].ctype != "dns-01"
    ensures r.None? ==> forall j :: 0 <= j < |challenges| ==> challenges[j].ctype != "dns-01"
  {
    if challenges == [] then None
    else if challenges[0].ctype == "dns-01" then Some(0)
    else match FirstDns01(challenges[1..])
      case None => None
      case Some(i) => Some(i + 1)
  }

  /** The TXT record that answers a DNS-01 challenge for `domain`. */
  function ChallengeRecordSet(domain: string, txt: string): (rrs: Dns.RecordSet)
    ensures rrs.name == "_acme-challenge." + domain + "." && rrs.rtype == "TXT"
    ensures rrs.ttl == 60 && rrs.rrdatas == [txt]
  {
    Dns.RecordSet("_acme-challenge." + domain + ".", "TXT", 60, [txt])
  }

  datatype Step = Step(err: Option<Error>, events: seq<Event>)

  /** `authorizeDomain`: nothing more to do for a valid authorization; otherwise the
      first dns-01 challenge is answered by publishing its TXT record, accepting the
      challenge and waiting for the authorization, the first error aborting. */
  function AuthorizeDomain(ca: Ca, domain: string): (s: Step)
    ensures 1 <= |s.events| <= 5 && s.events[0] == Authorize(domain)
    ensures ca.authorize(domain).Err? ==> s == Step(Some(ca.authorize(domain).error), [Authorize(domain)])
    ensures forall e :: e in s.events && e.UpdateDns? ==>
      && e.rrs.name == "_acme-challenge." + domain + "." && e.rrs.rtype == "TXT"
      && e.rrs.ttl == 60 && |e.rrs.rrdatas| == 1 && e.waitPropagation
    ensures forall e :: e in s.events && e.Accept? ==> e.challenge.ctype == "dns-01"
    ensures s.err.None? ==>
      && ca.authorize(domain).Ok?
      && (ca.authorize(domain).value.status == StatusValid ||
          s.events[|s.events| - 1] == WaitAuthorization(ca.authorize(domain).value.uri))
  {
    match ca.authorize(domain)
    case Err(e) => Step(Some(e), [Authorize(domain)])
    case Ok(auth) =>
      if auth.status == StatusValid then Step(None, [Authorize(domain)])
      else match FirstDns01(auth.challenges)
        case None => Step(Some(Error("No DNS challenge found for domain " + domain)), [Authorize(domain)])
        case Some(i) =>
          var ch := auth.challenges[i];
          var events := [Authorize(domain), ChallengeRecord(ch.token)];
          match ca.challengeRecord(ch.token)
          case Err(e) => Step(Some(e), events)
          case Ok(txt) =>
            var rrs := ChallengeRecordSet(domain, txt);
            var events := events + [UpdateDns(rrs, true)];
            if ca.updateDns(rrs).Some? then Step(ca.updateDns(rrs), events)
            else
              var events := events + [Accept(ch)];
              if ca.accept(ch).Some? then Step(ca.accept(ch), events)
              else Step(ca.waitAuthorization(auth.uri), events + [WaitAuthorization(auth.uri)])
  }

  /** The full interaction for a pending authorization answered through challenge `ch`. */
  function FullSteps(domain: string, ch: Challenge, txt: string, uri: string): seq<Event>
  {
    [Authorize(domain), ChallengeRecord(ch.token), UpdateDns(ChallengeRecordSet(domain, txt), true),
     Accept(ch), WaitAuthorization(uri)]
  }

  /** An authorization the CA already holds as valid costs one call and no DNS write
      or challenge acceptance (network/acme.go:179-181). */
  lemma ValidAuthorizationShortCircuits(ca: Ca, domain: string)
    requires ca.authorize(domain).Ok? && ca.authorize(domain).value.status == StatusValid
    ensures AuthorizeDomain(ca, domain) == Step(None, [Authorize(domain)])
    ensures forall e :: e in AuthorizeDomain(ca, domain).events ==> !e.UpdateDns? && !e.Accept?
  {
  }

  /** Without a dns-01 challenge the authorization fails naming the domain (network/acme.go:205). */
  lemma NoDns01Fails(ca: Ca, domain: string)
    requires ca.authorize(domain).Ok? && ca.authorize(domain).value.status != StatusValid
    requires forall ch :: ch in ca.authorize(domain).value.challenges ==> ch.ctype != "dns-01"
    ensures AuthorizeDomain(ca, domain) ==
      Step(Some(Error("No DNS challenge found for domain " + domain)), [Authorize(domain)])
  {
    var chs := ca.authorize(domain).value.challenges;
    assert forall j :: 0 <= j < |chs| ==> chs[j] in chs;
  }

  /** A failed challenge-record computation for the chosen dns-01 challenge is
      returned as is, after two interactions and before any DNS update
      (network/acme.go:184-188). */
  lemma ChallengeRecordErrorPasses(ca: Ca, domain: string)
    requires ca.authorize(domain).Ok? && ca.authorize(domain).value.status != StatusValid
    requires FirstDns01(ca.authorize(domain).value.challenges).Some?
    ensures var chs := ca.authorize(domain).value.challenges;
      var token := chs[FirstDns01(chs).value].token;
      ca.challengeRecord(token).Err? ==>
        AuthorizeDomain(ca, domain) == Step(Some(ca.challengeRecord(token).error), [Authorize(domain), ChallengeRecord(token)])
  {
  }

  /** A pending authorization follows the fixed order authorize, challenge record, DNS
      update (TXT at `_acme-challenge.<domain>.`, TTL 60, waiting for propagation),
      accept, wait; it stops after the first failing step, and it succeeds only when
      every step did (network/acme.go:182-202). */
  lemma PendingAuthorizationOrder(ca: Ca, domain: string)
    requires ca.authorize(domain).Ok? && ca.authorize(domain).value.status != StatusValid
    requires FirstDns01(ca.authorize(domain).value.challenges).Some?
    requires ca.challengeRecord(ca.authorize(domain).value.challenges[FirstDns01(ca.authorize(domain).value.challenges).value].token).Ok?
    ensures var auth := ca.authorize(domain).value;
      var ch := auth.challenges[FirstDns01(auth.challenges).value];
      var txt := ca.challengeRecord(ch.token).value;
      var s := AuthorizeDomain(ca, domain);
      && 3 <= |s.events| && s.events == FullSteps(domain, ch, txt, auth.uri)[..|s.events|]
      && (s.err.None? <==> |s.events| == 5 && ca.waitAuthorization(auth.uri).None?)
      && (|s.events| == 3 <==> ca.updateDns(ChallengeRecordSet(domain, txt)).Some?)
      && (|s.events| == 4 ==> s.err == ca.accept(ch))
  {
  }

  /** `requestAndWriteCertificate`'s first loop: the domains are authorized in list
      order by `authorize` and the first failure stops it. Returns the error, the
      events and how many domains were authorized. */
  function AuthorizeAll(authorize: string -> Step, domains: seq<string>): (r: (Option<Error>, seq<Event>, nat))
    ensures r.2 <= |domains|
    ensures r.0.None? <==> r.2 == |domains|
    ensures forall j :: 0 <= j < r.2 ==> authorize(domains[j]).err.None?
    ensures r.0.Some? ==> r.0 == authorize(domains[r.2]).err
  {
    if domains == [] then (None, [], 0)
    else
      var s := authorize(domains[0]);
      if s.err.Some? then (s.err, s.events, 0)
      else
        var (err, events, n) := AuthorizeAll(authorize, domains[1..]);
        (err, s.events + events, n + 1)
  }

  /** The certificate request: the primary domain as Common Name, every domain as a
      Subject Alternative Name, in order. */
  function CsrFor(domains: seq<string>): (csr: Csr)
    requires |domains| > 0
    ensures csr.commonName == domains[0] && csr.dnsNames == domains
  {
    Csr(domains[0], domains)
  }

  /** The certificate file: one CERTIFICATE PEM block per DER certificate, in chain order. */
  function PemChain(c: Codec, der: seq<Bytes>): Bytes
  {
    if der == [] then [] else PemChain(c, der[..|der| - 1]) + c.pemEncode(PemBlock("CERTIFICATE", der[|der| - 1]))
  }

  /** The chain encoding splits along the chain: the file is the PEM encoding of the
      first part followed by that of the rest. */
  lemma {:induction false} PemChainAppend(c: Codec, a: seq<Bytes>, b: seq<Bytes>)
    ensures PemChain(c, a + b) == PemChain(c, a) + PemChain(c, b)
  {
    if b != [] {
      assert (a + b)[..|a + b| - 1] == a + b[..|b| - 1];
      PemChainAppend(c, a, b[..|b| - 1]);
    } else {
      assert a + b == a;
    }
  }

  /** Encodes the chain block by block, appending to the certificate bytes. */
  method EncodeChain(c: Codec, der: seq<Bytes>) returns (cert: Bytes)
    ensures cert == PemChain(c, der)
  {
    cert := [];
    for i := 0 to |der|
      invariant cert == PemChain(c, der[..i])
    {
      assert der[..i + 1][..i] == der[..i];
      cert := cert + c.pemEncode(PemBlock("CERTIFICATE", der[i]));
    }
    assert der[..|der|] == der;
  }

  /** What `requestAndWriteCertificate` leaves: the first failing authorization, or else
      the key step's error, the request's, the CA's or the write's, each with the files
      and the interactions up to that step; on success the chain written to the
      certificate path. */
  ghost predicate Requested(fs: Fs, c: Codec, ca: Ca, generate: Path -> Result<Key, Error>,
                            client: AcmeClient, domains: seq<string>,
                            err: Option<Error>, fs': Fs, events: seq<Event>)
    requires |domains| > 0
  {
    var (aerr, aevents, n) := AuthorizeAll(d => AuthorizeDomain(ca, d), domains);
    var (certPath, keyPath) := CertpairPath(c, client.workDirectory, domains);
    var ko := ReadOrCreateKey(fs, c, generate, keyPath);
    && (aerr.Some? ==> err == aerr && fs' == fs && events == aevents)
    && (aerr.None? ==>
        && (ko.err.Some? ==> err == ko.err && fs' == ko.fs && events == aevents + ko.events)
        && (ko.err.None? ==>
             var csr := c.createCsr(CsrFor(domains), ko.key.value);
             && (csr.Err? ==> err == Some(csr.error) && fs' == ko.fs && events == aevents + ko.events)
             && (csr.Ok? ==>
                  var der := ca.createCert(csr.value);
                  && events == aevents + ko.events + [CreateCert(csr.value, CertValidityHours)]
                  && (der.Err? ==> err == Some(der.error) && fs' == ko.fs)
                  && (der.Ok? && certPath in ko.fs.unwritable ==> err.Some? && fs' == ko.fs)
                  && (der.Ok? && certPath !in ko.fs.unwritable ==>
                       err.None? && fs' == ko.fs.(files := ko.fs.files[certPath := PemChain(c, der.value)])))))
  }

  /** `requestAndWriteCertificate`: authorize every domain in order, then read or create
      the domain key, build the request, have the CA sign it and write the chain last. */
  method RequestAndWriteCertificate(fs: Fs, c: Codec, ca: Ca, generate: Path -> Result<Key, Error>,
                                    client: AcmeClient, domains: seq<string>)
    returns (err: Option<Error>, fs': Fs, events: seq<Event>)
    requires |domains| > 0
    ensures Requested(fs, c, ca, generate, client, domains, err, fs', events)
  {
    var auth := d => AuthorizeDomain(ca, d);
    events := [];
    var i := 0;
    while i < |domains|
      invariant 0 <= i <= |domains|
      invariant AuthorizeAll(auth, domains[..i]) == (None, events, i)
    {
      var s := AuthorizeDomain(ca, domains[i]);
      AuthorizeAllSnoc(auth, domains[..i], domains[i]);
      assert domains[..i + 1] == domains[..i] + [domains[i]];
      if s.err.Some? {
        AuthorizeAllPrefix(auth, domains, i + 1);
        return s.err, fs, events + s.events;
      }
      events := events + s.events;
      i := i + 1;
    }
    assert domains[..i] == domains;
    var (certPath, keyPath) := CertpairPath(c, client.workDirectory, domains);
    var ko := ReadOrCreateKey(fs, c, generate, keyPath);
    events := events + ko.events;
    if ko.err.Some? {
      return ko.err, ko.fs, events;
    }
    var csr := c.createCsr(CsrFor(domains), ko.key.value);
    if csr.Err? {
      return Some(csr.error), ko.fs, events;
    }
    events := events + [CreateCert(csr.value, CertValidityHours)];
    var der := ca.createCert(csr.value);
    if der.Err? {
      return Some(der.error), ko.fs, events;
    }
    var cert := EncodeChain(c, der.value);
    if certPath in ko.fs.unwritable {
      return Some(Error("open " + certPath + ": permission denied")), ko.fs, events;
    }
    return None, ko.fs.(files := ko.fs.files[certPath := cert]), events;
  }

  /** Authorizing one more domain after a successful run extends the run. */
  lemma {:induction false} AuthorizeAllSnoc(auth: string -> Step, domains: seq<string>, d: string)
    requires AuthorizeAll(auth, domains).0.None?
    ensures var (err, events, n) := AuthorizeAll(auth, domains);
      var s := auth(d);
      AuthorizeAll(auth, domains + [d]) == (s.err, events + s.events, if s.err.None? then n + 1 else n)
    decreases |domains|, 1
  {
    if domains == [] {
      assert domains + [d] == [d] && [d][1..] == [];
      assert [] + auth(d).events == auth(d).events + [] == auth(d).events;
    } else {
      SnocStep(auth, domains, d);
    }
  }

  /** The inductive step of `AuthorizeAllSnoc`: the first domain succeeded. */
  lemma {:induction false} SnocStep(auth: string -> Step, domains: seq<string>, d: string)
    requires domains != [] && AuthorizeAll(auth, domains).0.None?
    ensures var (err, events, n) := AuthorizeAll(auth, domains);
      var s := auth(d);
      AuthorizeAll(auth, domains + [d]) == (s.err, events + s.events, if s.err.None? then n + 1 else n)
    decreases |domains|, 0
  {
    var s0 := auth(domains[0]);
    var rest := AuthorizeAll(auth, domains[1..]);
    assert s0.err.None?;
    assert AuthorizeAll(auth, domains) == (None, s0.events + rest.1, rest.2 + 1);
    AuthorizeAllSnoc(auth, domains[1..], d);
    assert (domains + [d])[0] == domains[0];
    assert (domains + [d])[1..] == domains[1..] + [d];
    AppendAssoc(s0.events, rest.1, auth(d).events);
  }


  /** Once a prefix of the domains fails, the rest are never authorized. */
  lemma {:induction false} AuthorizeAllPrefix(auth: string -> Step, domains: seq<string>, k: nat)
    requires k <= |domains| && AuthorizeAll(auth, domains[..k]).0.Some?
    ensures AuthorizeAll(auth, domains) == AuthorizeAll(auth, domains[..k])
  {
    if domains != [] && k > 0 {
      assert domains[..k][0] == domains[0];
      assert domains[..k][1..] == domains[1..][..k - 1];
      if auth(domains[0]).err.None? {
        AuthorizeAllPrefix(auth, domains[1..], k - 1);
      }
    }
  }

  /** Domains are processed strictly in order and one failure aborts the request for
      the whole list: no domain after the failing one is authorized (network/acme.go:138-142). */
  lemma FailureStopsAuthorization(ca: Ca, domains: seq<string>, k: nat)
    requires k < |domains| && AuthorizeDomain(ca, domains[k]).err.Some?
    requires forall j :: 0 <= j < k ==> AuthorizeDomain(ca, domains[j]).err.None?
    ensures AuthorizeAll(d => AuthorizeDomain(ca, d), domains).0 == AuthorizeDomain(ca, domains[k]).err
    ensures AuthorizeAll(d => AuthorizeDomain(ca, d), domains).2 == k
    ensures forall j :: k < j < |domains| ==>
      Authorize(domains[j]) in AuthorizeAll(d => AuthorizeDomain(ca, d), domains).1 ==> exists i :: 0 <= i <= k && domains[i] == domains[j]
  {
    FailureCount(ca, domains, k);
    FailureEvents(ca, domains, k);
  }

  /** The first failing domain is the error, and the count of authorized domains. */
  lemma {:induction false} FailureCount(ca: Ca, domains: seq<string>, k: nat)
    requires k < |domains| && AuthorizeDomain(ca, domains[k]).err.Some?
    requires forall j :: 0 <= j < k ==> AuthorizeDomain(ca, domains[j]).err.None?
    ensures AuthorizeAll(d => AuthorizeDomain(ca, d), domains).0 == AuthorizeDomain(ca, domains[k]).err
    ensures AuthorizeAll(d => AuthorizeDomain(ca, d), domains).2 == k
  {
    if k > 0 {
      FailureCount(ca, domains[1..], k - 1);
    }
  }

  /** No domain after the first failing one is authorized. */
  lemma {:induction false} FailureEvents(ca: Ca, domains: seq<string>, k: nat)
    requires k < |domains| && AuthorizeDomain(ca, domains[k]).err.Some?
    requires forall j :: 0 <= j < k ==> AuthorizeDomain(ca, domains[j]).err.None?
    ensures forall j :: k < j < |domains| ==>
      Authorize(domains[j]) in AuthorizeAll(d => AuthorizeDomain(ca, d), domains).1 ==> exists i :: 0 <= i <= k && domains[i] == domains[j]
  {
    if k > 0 {
      FailureEvents(ca, domains[1..], k - 1);
      var rest := AuthorizeAll(d => AuthorizeDomain(ca, d), domains[1..]);
      var s := AuthorizeDomain(ca, domains[0]);
      forall j | k < j < |domains| && Authorize(domains[j]) in AuthorizeAll(d => AuthorizeDomain(ca, d), domains).1
        ensures exists i :: 0 <= i <= k && domains[i] == domains[j]
      {
        if Authorize(domains[j]) in s.events {
          AuthorizeEventsName(ca, domains[0]);
        } else {
          assert Authorize(domains[1..][j - 1]) in rest.1;
          var i :| 0 <= i <= k - 1 && domains[1..][i] == domains[1..][j - 1];
          assert domains[i + 1] == domains[j];
        }
      }
    } else {
      forall j | 0 < j < |domains| && Authorize(domains[j]) in AuthorizeAll(d => AuthorizeDomain(ca, d), domains).1
        ensures exists i :: 0 <= i <= k && domains[i] == domains[j]
      {
        AuthorizeEventsName(ca, domains[0]);
      }
    }
  }


  /** The only domain `authorizeDomain` asks the CA about is its own. */
  lemma AuthorizeEventsName(ca: Ca, domain: string)
    ensures forall e :: e in AuthorizeDomain(ca, domain).events && e.Authorize? ==> e.domain == domain
  {
  }

  /** `CheckOrRefreshCertificate`: an existing certificate file is taken as fresh (its
      expiry is not inspected); only a missing one triggers a request. */
  method CheckOrRefreshCertificate(fs: Fs, c: Codec, ca: Ca, generate: Path -> Result<Key, Error>,
                                   client: AcmeClient, domains: seq<string>)
    returns (err: Option<Error>, fs': Fs, events: seq<Event>)
    requires |domains| > 0
    ensures CertpairPath(c, client.workDirectory, domains).0 in fs.files ==>
      err.None? && fs' == fs && events == []
    ensures CertpairPath(c, client.workDirectory, domains).0 !in fs.files ==>
      |events| > 0 && events[0] == Authorize(domains[0])
    ensures CertpairPath(c, client.workDirectory, domains).0 !in fs.files ==>
      Requested(fs, c, ca, generate, client, domains, err, fs', events)
    ensures err.None? ==> CertpairPath(c, client.workDirectory, domains).0 in fs'.files
  {
    var (certPath, _) := CertpairPath(c, client.workDirectory, domains);
    if certPath in fs.files {
      return None, fs, [];
    }
    err, fs', events := RequestAndWriteCertificate(fs, c, ca, generate, client, domains);
    assert AuthorizeDomain(ca, domains[0]).events[0] == Authorize(domains[0]);
  }
}
