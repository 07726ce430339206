/**
 Leaf-certificate issuance for the TLS listener (`mkCert`, `getTLSConfig`,
 `getCertificateHook`, `publicKey`).

 The X.509 template follows RFC 5280: key usage (section 4.2.1.3), subject
 alternative names (section 4.2.1.6), extended key usage (section 4.2.1.12),
 basic constraints (section 4.2.1.9), validity (section 4.1.2.5) and serial
 number (section 4.1.2.2). Cryptography is replaced by opaque byte strings:
 the outcome of key generation, of the serial-number draw and of signing are
 inputs (`Randomness`), time is an integer number of seconds, and
 `net.ParseIP` is the parameter `parseIP`.
 */
module TlsServer {
  import opened Wrappers
  import Strings

  /** Opaque key material or signature bytes. */
  type Blob = seq<bv8>

  /** An IP address as `net.ParseIP` returns it. */
  type IpAddr = seq<bv8>

  /** One hour, in seconds. */
  const Hour: int := 3600
  /** One day, in seconds. */
  const Day: int := 24 * Hour
  /** Length of the validity period, in days. */
  const ValidityDays: int := 365
  /** Serial numbers are drawn from [0, 2^128). */
  const SerialLimit: int := 0x1_0000_0000_0000_0000_0000_0000_0000_0000
  /** Separator of the host list given to `mkCert`. */
  const HostSeparator: char := ','
  /** The host list `getTLSConfig` issues its one certificate for. */
  const WildcardHost: string := "*"
  /** The subject organization of every issued certificate. */
  const Organization: string := "Acme Co"

  // ---------------------------------------------------------------------------
  // Keys
  // ---------------------------------------------------------------------------

  datatype Curve = P224 | P256 | P384 | P521

  /** The dynamic types a Go private key can have, with opaque material. */
  datatype PrivateKey =
    | RsaPrivate(rsaPublic: Blob, rsaSecret: Blob)
    | EcdsaPrivate(curve: Curve, ecPublic: Blob, ecSecret: Blob)
    | Ed25519Private(seed: Blob, edPublic: Blob)
    | OtherPrivate(material: Blob)

  datatype PublicKey =
    | RsaPublic(rsaKey: Blob)
    | EcdsaPublic(ecCurve: Curve, ecKey: Blob)
    | Ed25519Public(edKey: Blob)

  /** `pub` is the public half of the key pair `priv` belongs to. */
  predicate IsPublicHalf(priv: PrivateKey, pub: PublicKey) {
    match priv
    case RsaPrivate(p, _) => pub == RsaPublic(p)
    case EcdsaPrivate(c, p, _) => pub == EcdsaPublic(c, p)
    case Ed25519Private(_, p) => pub == Ed25519Public(p)
    case OtherPrivate(_) => false
  }

  /** `publicKey`: the public half of an RSA, ECDSA or Ed25519 key, and `nil` (`None`) for any other type. */
  function PublicKeyOf(priv: PrivateKey): (r: Option<PublicKey>)
    ensures r.None? <==> priv.OtherPrivate?
    ensures r.Some? ==> IsPublicHalf(priv, r.value)
    ensures priv.RsaPrivate? <==> r.Some? && r.value.RsaPublic?
    ensures priv.EcdsaPrivate? <==> r.Some? && r.value.EcdsaPublic?
    ensures priv.Ed25519Private? <==> r.Some? && r.value.Ed25519Public?
  {
    match priv
    case RsaPrivate(p, _) => Some(RsaPublic(p))
    case EcdsaPrivate(c, p, _) => Some(EcdsaPublic(c, p))
    case Ed25519Private(_, p) => Some(Ed25519Public(p))
    case OtherPrivate(_) => None
  }

  /** A private key has at most one public half, and `publicKey` returns it. */
  lemma PublicHalfUnique(priv: PrivateKey, pub: PublicKey)
    requires IsPublicHalf(priv, pub)
    ensures PublicKeyOf(priv) == Some(pub)
  {
  }

  // ---------------------------------------------------------------------------
  // The certificate template
  // ---------------------------------------------------------------------------

  /** The key usage bits of RFC 5280, section 4.2.1.3, in bit order. */
  datatype KeyUsage =
    | DigitalSignature | ContentCommitment | KeyEncipherment | DataEncipherment
    | KeyAgreement | CertSign | CrlSign | EncipherOnly | DecipherOnly

  /** Extended key usage purposes of RFC 5280, section 4.2.1.12. */
  datatype ExtKeyUsage =
    | AnyExtKeyUsage | ServerAuth | ClientAuth | CodeSigning
    | EmailProtection | TimeStamping | OcspSigning

  datatype Name = Name(organization: seq<string>, commonName: string)

  /** The fields of `x509.Certificate` that `mkCert` sets; times are in seconds. */
  datatype Template = Template(
    serialNumber: int,
    subject: Name,
    notBefore: int,
    notAfter: int,
    keyUsage: set<KeyUsage>,
    extKeyUsage: seq<ExtKeyUsage>,
    basicConstraintsValid: bool,
    isCA: bool,
    dnsNames: seq<string>,
    ipAddresses: seq<IpAddr>)

  /** The tokens `parseIP` rejects, in their original order: the DNS-name SANs. */
  function DnsTokens(ts: seq<string>, parseIP: string -> Option<IpAddr>): seq<string>
    decreases |ts|
  {
    if |ts| == 0 then []
    else (if parseIP(ts[0]).None? then [ts[0]] else []) + DnsTokens(ts[1..], parseIP)
  }

  /** The addresses of the tokens `parseIP` accepts, in their original order: the IP SANs. */
  function IpTokens(ts: seq<string>, parseIP: string -> Option<IpAddr>): seq<IpAddr>
    decreases |ts|
  {
    if |ts| == 0 then []
    else
      (match parseIP(ts[0]) case Some(ip) => [ip] case None => []) + IpTokens(ts[1..], parseIP)
  }

  datatype Sans = Sans(ipAddresses: seq<IpAddr>, dnsNames: seq<string>)

  /**
   The SAN loop of `mkCert`: host by host, left to right, an IP literal is
   appended to the IP addresses and anything else to the DNS names.
   */
  function AppendSans(acc: Sans, hosts: seq<string>, parseIP: string -> Option<IpAddr>): (r: Sans)
    ensures r.ipAddresses == acc.ipAddresses + IpTokens(hosts, parseIP)
    ensures r.dnsNames == acc.dnsNames + DnsTokens(hosts, parseIP)
    decreases |hosts|
  {
    if |hosts| == 0 then acc
    else if parseIP(hosts[0]).Some? then
      var ip := parseIP(hosts[0]).value;
      assert IpTokens(hosts, parseIP) == [ip] + IpTokens(hosts[1..], parseIP);
      assert DnsTokens(hosts, parseIP) == DnsTokens(hosts[1..], parseIP);
      assert acc.ipAddresses + [ip] + IpTokens(hosts[1..], parseIP) == acc.ipAddresses + IpTokens(hosts, parseIP);
      AppendSans(Sans(acc.ipAddresses + [ip], acc.dnsNames), hosts[1..], parseIP)
    else
      assert IpTokens(hosts, parseIP) == IpTokens(hosts[1..], parseIP);
      assert DnsTokens(hosts, parseIP) == [hosts[0]] + DnsTokens(hosts[1..], parseIP);
      assert acc.dnsNames + [hosts[0]] + DnsTokens(hosts[1..], parseIP) == acc.dnsNames + DnsTokens(hosts, parseIP);
      AppendSans(Sans(acc.ipAddresses, acc.dnsNames + [hosts[0]]), hosts[1..], parseIP)
  }

  /**
   The tokens are partitioned: each lands in exactly one of the two SAN lists,
   according to whether it parses as an IP address, so the counts add up.
   */
  lemma {:induction false} SansPartitionTokens(ts: seq<string>, parseIP: string -> Option<IpAddr>)
    ensures |IpTokens(ts, parseIP)| + |DnsTokens(ts, parseIP)| == |ts|
    ensures forall t :: t in DnsTokens(ts, parseIP) <==> t in ts && parseIP(t).None?
    ensures forall a :: a in IpTokens(ts, parseIP) ==> exists t :: t in ts && parseIP(t) == Some(a)
    ensures forall t :: t in ts && parseIP(t).Some? ==> parseIP(t).value in IpTokens(ts, parseIP)
    decreases |ts|
  {
    if |ts| > 0 {
      SansPartitionTokens(ts[1..], parseIP);
      assert forall t :: t in ts <==> t == ts[0] || t in ts[1..];
    }
  }

  /** Characters an IP literal is written with: hexadecimal digits, '.' and ':'. */
  predicate IpLiteralChar(c: char) {
    '0' <= c <= '9' || 'a' <= c <= 'f' || 'A' <= c <= 'F' || c == '.' || c == ':'
  }

  /** What the model assumes of `net.ParseIP`: it accepts only non-empty strings of IP-literal characters. */
  ghost predicate ParsesOnlyIpLiterals(parseIP: string -> Option<IpAddr>) {
    forall s :: parseIP(s).Some? ==> |s| > 0 && forall i :: 0 <= i < |s| ==> IpLiteralChar(s[i])
  }

  /** The template `mkCert` fills in for `host`, key `priv`, issuance time `now` and serial `serial`. */
  function MakeTemplate(host: string, now: int, priv: PrivateKey, serial: int, parseIP: string -> Option<IpAddr>): (t: Template)
    requires 0 <= serial < SerialLimit
    ensures DigitalSignature in t.keyUsage
    ensures KeyEncipherment in t.keyUsage <==> priv.RsaPrivate?
    ensures t.keyUsage <= {DigitalSignature, KeyEncipherment}
    ensures t.notBefore == now - Day && t.notAfter - t.notBefore == ValidityDays * Day
    ensures t.notBefore < now < t.notAfter
    ensures t.serialNumber == serial && 0 <= t.serialNumber < SerialLimit
    ensures t.extKeyUsage == [ClientAuth, ServerAuth]
    ensures t.basicConstraintsValid && !t.isCA
    ensures t.subject == Name([Organization], "")
    ensures t.dnsNames == DnsTokens(Strings.Split(host, HostSeparator), parseIP)
    ensures t.ipAddresses == IpTokens(Strings.Split(host, HostSeparator), parseIP)
  {
    var keyUsage := if priv.RsaPrivate? then {DigitalSignature, KeyEncipherment} else {DigitalSignature};
    var notBefore := now - Day;
    var sans := AppendSans(Sans([], []), Strings.Split(host, HostSeparator), parseIP);
    Template(
      serial, Name([Organization], ""), notBefore, notBefore + ValidityDays * Day,
      keyUsage, [ClientAuth, ServerAuth], true, false,
      sans.dnsNames, sans.ipAddresses)
  }

  /** The SAN lists of a template partition the comma-separated host list. */
  lemma {:induction false} TemplateSansPartitionHosts(host: string, now: int, priv: PrivateKey, serial: int, parseIP: string -> Option<IpAddr>)
    requires 0 <= serial < SerialLimit
    ensures
      var t := MakeTemplate(host, now, priv, serial, parseIP);
      var hosts := Strings.Split(host, HostSeparator);
      && |t.ipAddresses| + |t.dnsNames| == |hosts| == Strings.Count(host, HostSeparator) + 1
      && (forall h :: h in t.dnsNames <==> h in hosts && parseIP(h).None?)
      && (forall h :: h in hosts && parseIP(h).Some? ==> parseIP(h).value in t.ipAddresses)
  {
    SansPartitionTokens(Strings.Split(host, HostSeparator), parseIP);
    Strings.SplitCount(host, HostSeparator);
  }

  // ---------------------------------------------------------------------------
  // Signing and packaging
  // ---------------------------------------------------------------------------

  /** The part of the loaded CA certificate issuance uses: its subject and public key. */
  datatype CaCert = CaCert(subject: Name, publicKey: PublicKey)

  /** The CA certificate together with its private key, as the key pair file holds them. */
  datatype CaMaterial = CaMaterial(cert: CaCert, privateKey: PrivateKey)

  /** Loading the CA checks that its private key belongs to its certificate. */
  predicate CaPairMatches(ca: CaMaterial) {
    IsPublicHalf(ca.privateKey, ca.cert.publicKey)
  }

  /**
   A signed certificate: the template, the issuer name copied from the parent,
   the certified key, and the public half of the key that made the signature.
   */
  datatype Leaf = Leaf(template: Template, issuer: Name, subjectKey: PublicKey, signerKey: PublicKey, signature: Blob)

  /** A served certificate: its chain (leaf first) and the leaf's private key. */
  datatype TlsCertificate = TlsCertificate(chain: seq<Leaf>, privateKey: PrivateKey)

  /** `leaf` names the CA as issuer and its signature verifies under the CA's key. */
  predicate ChainsTo(leaf: Leaf, ca: CaCert) {
    leaf.issuer == ca.subject && leaf.signerKey == ca.publicKey
  }

  datatype CertError =
    | KeyGenerationFailed
    | SerialNumberFailed
    | CreateCertificateFailed
    | MarshalKeyFailed
    | KeyPairMismatch

  /**
   The random choices of one issuance: the generated P-256 key pair (public
   point, secret scalar) or a failure, the drawn serial number or a failure,
   and the signature bytes or a signing failure.
   */
  datatype Randomness = Randomness(keyPair: Option<(Blob, Blob)>, serialDraw: Option<int>, signature: Option<Blob>)

  /** `rand.Int` draws below its limit. */
  predicate SerialInRange(rnd: Randomness) {
    rnd.serialDraw.Some? ==> 0 <= rnd.serialDraw.value < SerialLimit
  }

  /**
   `x509.CreateCertificate`: fails without a signature or a usable key, and
   refuses a signing key whose public half is not the parent's public key;
   otherwise issues under `parent`.
   */
  function CreateCertificate(t: Template, parent: CaCert, pub: Option<PublicKey>, signer: PrivateKey, signature: Option<Blob>): (r: Result<Leaf, CertError>)
    ensures r.Success? <==> signature.Some? && pub.Some? && IsPublicHalf(signer, parent.publicKey)
    ensures r.Failure? ==> r.error == CreateCertificateFailed
    ensures r.Success? ==>
      && r.value.template == t
      && r.value.issuer == parent.subject
      && r.value.subjectKey == pub.value
      && IsPublicHalf(signer, r.value.signerKey)
      && ChainsTo(r.value, parent)
  {
    match (signature, pub, PublicKeyOf(signer))
    case (Some(sig), Some(p), Some(s)) =>
      if s != parent.publicKey then Failure(CreateCertificateFailed)
      else Success(Leaf(t, parent.subject, p, s, sig))
    case _ => Failure(CreateCertificateFailed)
  }

  /**
   PKCS#8 marshalling of the key followed by `tls.X509KeyPair`: unsupported
   key types cannot be marshalled, and the pair is refused unless the leaf
   certifies the private key's public half.
   */
  function PackageKeyPair(leaf: Leaf, priv: PrivateKey): (r: Result<TlsCertificate, CertError>)
    ensures r.Success? <==> IsPublicHalf(priv, leaf.subjectKey)
    ensures r.Success? ==> r.value == TlsCertificate([leaf], priv)
  {
    if priv.OtherPrivate? then Failure(MarshalKeyFailed)
    else if PublicKeyOf(priv) != Some(leaf.subjectKey) then Failure(KeyPairMismatch)
    else Success(TlsCertificate([leaf], priv))
  }

  /** Key generation, serial draw and template: the steps both readings of `mkCert` share. */
  function PrepareLeaf(host: string, now: int, rnd: Randomness, parseIP: string -> Option<IpAddr>): (r: Result<(PrivateKey, Template), CertError>)
    requires SerialInRange(rnd)
    ensures rnd.keyPair.None? ==> r == Failure(KeyGenerationFailed)
    ensures rnd.keyPair.Some? && rnd.serialDraw.None? ==> r == Failure(SerialNumberFailed)
    ensures r.Success? <==> rnd.keyPair.Some? && rnd.serialDraw.Some?
    ensures r.Success? ==>
      && r.value.0 == EcdsaPrivate(P256, rnd.keyPair.value.0, rnd.keyPair.value.1)
      && r.value.1 == MakeTemplate(host, now, r.value.0, rnd.serialDraw.value, parseIP)
  {
    match rnd.keyPair
    case None => Failure(KeyGenerationFailed)
    case Some(kp) =>
      var priv := EcdsaPrivate(P256, kp.0, kp.1);
      match rnd.serialDraw
      case None => Failure(SerialNumberFailed)
      case Some(serial) => Success((priv, MakeTemplate(host, now, priv, serial, parseIP)))
  }

  /** What every certificate issued for `host` at `now` with randomness `rnd` satisfies. */
  ghost predicate IssuedAsPromised(c: TlsCertificate, host: string, now: int, rnd: Randomness, parseIP: string -> Option<IpAddr>)
    requires rnd.keyPair.Some? && rnd.serialDraw.Some?
  {
    var hosts := Strings.Split(host, HostSeparator);
    && |c.chain| == 1
    && c.privateKey == EcdsaPrivate(P256, rnd.keyPair.value.0, rnd.keyPair.value.1)
    && IsPublicHalf(c.privateKey, c.chain[0].subjectKey)
    && c.chain[0].template.keyUsage == {DigitalSignature}
    && c.chain[0].template.extKeyUsage == [ClientAuth, ServerAuth]
    && c.chain[0].template.basicConstraintsValid && !c.chain[0].template.isCA
    && c.chain[0].template.subject.organization == [Organization]
    && c.chain[0].template.serialNumber == rnd.serialDraw.value
    && 0 <= c.chain[0].template.serialNumber < SerialLimit
    && c.chain[0].template.notBefore == now - Day
    && c.chain[0].template.notAfter == now - Day + ValidityDays * Day
    && c.chain[0].template.dnsNames == DnsTokens(hosts, parseIP)
    && c.chain[0].template.ipAddresses == IpTokens(hosts, parseIP)
  }

  /**
   `mkCert` as written: the fresh leaf key is passed to `x509.CreateCertificate`
   as the signing key while the CA certificate is the parent, so signing is
   refused unless the CA's public key is the fresh leaf key itself.
   */
  function MkCertAsWritten(host: string, ca: CaCert, now: int, rnd: Randomness, parseIP: string -> Option<IpAddr>): (r: Result<TlsCertificate, CertError>)
    requires SerialInRange(rnd)
    ensures r.Success? <==>
      && rnd.keyPair.Some? && rnd.serialDraw.Some? && rnd.signature.Some?
      && ca.publicKey == EcdsaPublic(P256, rnd.keyPair.value.0)
    ensures rnd.keyPair.Some? && rnd.serialDraw.Some? && ca.publicKey != EcdsaPublic(P256, rnd.keyPair.value.0) ==>
      r == Failure(CreateCertificateFailed)
    ensures r.Success? ==> IssuedAsPromised(r.value, host, now, rnd, parseIP)
    ensures r.Success? ==> ChainsTo(r.value.chain[0], ca)
    ensures r.Success? ==> r.value.chain[0].signerKey == r.value.chain[0].subjectKey
  {
    match PrepareLeaf(host, now, rnd, parseIP)
    case Failure(e) => Failure(e)
    case Success((priv, t)) =>
      match CreateCertificate(t, ca, PublicKeyOf(priv), priv, rnd.signature)
      case Failure(e) => Failure(e)
      case Success(leaf) => PackageKeyPair(leaf, priv)
  }

  /**
   `mkCert` signing with the CA's own private key, which `readCA` loads
   together with the certificate: every issuance whose random steps succeed
   yields a certificate chained to the CA.
   */
  function MkCert(host: string, ca: CaMaterial, now: int, rnd: Randomness, parseIP: string -> Option<IpAddr>): (r: Result<TlsCertificate, CertError>)
    requires CaPairMatches(ca)
    requires SerialInRange(rnd)
    ensures rnd.keyPair.None? ==> r == Failure(KeyGenerationFailed)
    ensures rnd.keyPair.Some? && rnd.serialDraw.None? ==> r == Failure(SerialNumberFailed)
    ensures rnd.keyPair.Some? && rnd.serialDraw.Some? && rnd.signature.None? ==> r == Failure(CreateCertificateFailed)
    ensures r.Success? <==> rnd.keyPair.Some? && rnd.serialDraw.Some? && rnd.signature.Some?
    ensures r.Success? ==> IssuedAsPromised(r.value, host, now, rnd, parseIP)
    ensures r.Success? ==> ChainsTo(r.value.chain[0], ca.cert)
  {
    match PrepareLeaf(host, now, rnd, parseIP)
    case Failure(e) => Failure(e)
    case Success((priv, t)) =>
      match CreateCertificate(t, ca.cert, PublicKeyOf(priv), ca.privateKey, rnd.signature)
      case Failure(e) => Failure(e)
      case Success(leaf) => PackageKeyPair(leaf, priv)
  }

  /**
   With a CA whose key is not the fresh leaf key, the code as written ends in
   the signing failure (a fatal exit) where signing with the CA key succeeds.
   */
  lemma AsWrittenFailsForForeignCa(host: string, ca: CaMaterial, now: int, rnd: Randomness, parseIP: string -> Option<IpAddr>)
    requires CaPairMatches(ca)
    requires SerialInRange(rnd)
    requires rnd.keyPair.Some? && rnd.serialDraw.Some? && rnd.signature.Some?
    requires ca.cert.publicKey != EcdsaPublic(P256, rnd.keyPair.value.0)
    ensures MkCertAsWritten(host, ca.cert, now, rnd, parseIP) == Failure(CreateCertificateFailed)
    ensures MkCert(host, ca, now, rnd, parseIP).Success?
  {
  }

  /** A concrete RSA CA for which the as-written issuance fails and the CA-signed one succeeds. */
  lemma AsWrittenCounterexample()
    ensures
      var ca := CaMaterial(CaCert(Name(["CA"], "CA"), RsaPublic([1])), RsaPrivate([1], [9]));
      var rnd := Randomness(Some(([2], [3])), Some(7), Some([4]));
      && MkCertAsWritten(WildcardHost, ca.cert, 0, rnd, s => None) == Failure(CreateCertificateFailed)
      && MkCert(WildcardHost, ca, 0, rnd, s => None).Success?
  {
  }

  /** Whenever the code as written does issue a certificate, signing with the CA key issues the very same one. */
  lemma AsWrittenAgreesWhenItSucceeds(host: string, ca: CaMaterial, now: int, rnd: Randomness, parseIP: string -> Option<IpAddr>)
    requires CaPairMatches(ca)
    requires SerialInRange(rnd)
    requires MkCertAsWritten(host, ca.cert, now, rnd, parseIP).Success?
    ensures MkCert(host, ca, now, rnd, parseIP) == MkCertAsWritten(host, ca.cert, now, rnd, parseIP)
  {
  }

  // ---------------------------------------------------------------------------
  // The TLS configuration and the handshake hook
  // ---------------------------------------------------------------------------

  datatype ClientHello = ClientHello(serverName: string, remoteAddr: string)

  /** What a `GetCertificate` callback returns: a certificate, an error, or neither. */
  datatype HookResult = HookResult(certificate: Option<TlsCertificate>, err: Option<string>)

  /** The installed configuration: static certificates, their name index, and whether the hook is set. */
  datatype TlsConfig = TlsConfig(certificates: seq<TlsCertificate>, nameToCertificate: map<string, nat>, hookInstalled: bool)

  /** `getCertificateHook`: observes the handshake and returns neither a certificate nor an error. */
  function GetCertificateHook(hello: ClientHello): (r: HookResult)
    ensures r.certificate.None? && r.err.None?
  {
    HookResult(None, None)
  }

  /** `c` is indexed under `n`: a DNS SAN of its leaf, or the common name of a leaf without DNS SANs. */
  predicate NamesCertificate(c: TlsCertificate, n: string) {
    && |c.chain| > 0
    && var t := c.chain[0].template;
       n in t.dnsNames || (t.subject.commonName != "" && |t.dnsNames| == 0 && n == t.subject.commonName)
  }

  /**
   `BuildNameToCertificate`: every DNS SAN of each certificate's leaf, and the
   common name of a leaf without DNS SANs, is mapped to that certificate's
   index; later certificates override earlier ones.
   */
  function NameIndex(certs: seq<TlsCertificate>): (m: map<string, nat>)
    ensures forall n :: n in m ==> m[n] < |certs| && NamesCertificate(certs[m[n]], n)
    ensures forall n, j :: n in m && m[n] < j < |certs| ==> !NamesCertificate(certs[j], n)
    ensures forall i, n :: 0 <= i < |certs| && NamesCertificate(certs[i], n) ==> n in m
    decreases |certs|
  {
    if |certs| == 0 then map[]
    else
      var i := |certs| - 1;
      var earlier := NameIndex(certs[..i]);
      var m := IndexCertificate(earlier, certs[i], i);
      IndexStep(certs, earlier, m);
      m
  }

  /** `m` indexes `certs` as `BuildNameToCertificate` promises. */
  ghost predicate IndexesLastNaming(certs: seq<TlsCertificate>, m: map<string, nat>) {
    && (forall n :: n in m ==> m[n] < |certs| && NamesCertificate(certs[m[n]], n))
    && (forall n, j :: n in m && m[n] < j < |certs| ==> !NamesCertificate(certs[j], n))
    && (forall i, n :: 0 <= i < |certs| && NamesCertificate(certs[i], n) ==> n in m)
  }

  /** Indexing the last certificate on top of a correct index of the others gives a correct index of all. */
  lemma IndexStep(certs: seq<TlsCertificate>, earlier: map<string, nat>, m: map<string, nat>)
    requires |certs| > 0
    requires IndexesLastNaming(certs[..|certs| - 1], earlier)
    requires m == IndexCertificate(earlier, certs[|certs| - 1], |certs| - 1)
    ensures IndexesLastNaming(certs, m)
  {
    var i := |certs| - 1;
    var prefix := certs[..i];
    forall n | n in m
      ensures m[n] < |certs| && NamesCertificate(certs[m[n]], n)
    {
      if !NamesCertificate(certs[i], n) {
        assert prefix[earlier[n]] == certs[earlier[n]];
      }
    }
    forall n, j | n in m && m[n] < j < |certs|
      ensures !NamesCertificate(certs[j], n)
    {
      if !NamesCertificate(certs[i], n) && j < i {
        assert prefix[j] == certs[j];
      }
    }
    forall k, n | 0 <= k < |certs| && NamesCertificate(certs[k], n)
      ensures n in m
    {
      if k < i {
        assert prefix[k] == certs[k];
      }
    }
  }

  /** One step of `BuildNameToCertificate`: certificate `c`, at index `i`, overrides the names it carries. */
  function IndexCertificate(earlier: map<string, nat>, c: TlsCertificate, i: nat): (m: map<string, nat>)
    ensures forall n :: n in m <==> n in earlier || NamesCertificate(c, n)
    ensures forall n :: NamesCertificate(c, n) ==> n in m && m[n] == i
    ensures forall n :: n in earlier && !NamesCertificate(c, n) ==> m[n] == earlier[n]
  {
    if |c.chain| == 0 then earlier
    else
      var t := c.chain[0].template;
      var withCn := if t.subject.commonName != "" && |t.dnsNames| == 0 then earlier[t.subject.commonName := i] else earlier;
      withCn + map n | n in t.dnsNames :: i
  }

  /**
   The certificate the TLS layer presents: the hook's answer when it gives one,
   otherwise the only configured certificate. Choosing among several static
   certificates is not modelled (`None`).
   */
  function Served(cfg: TlsConfig, hello: ClientHello): Option<TlsCertificate> {
    var consultHook := cfg.hookInstalled && (|cfg.certificates| == 0 || |hello.serverName| > 0);
    var hooked := GetCertificateHook(hello);
    if consultHook && (hooked.certificate.Some? || hooked.err.Some?) then hooked.certificate
    else if |cfg.certificates| == 1 then Some(cfg.certificates[0])
    else None
  }

  /**
   `getTLSConfig`: installs the hook and exactly one certificate, issued for
   the host list "*", so its only SAN is the DNS name "*".
   */
  function GetTlsConfig(ca: CaMaterial, now: int, rnd: Randomness, parseIP: string -> Option<IpAddr>): (r: Result<TlsConfig, CertError>)
    requires CaPairMatches(ca)
    requires SerialInRange(rnd)
    requires ParsesOnlyIpLiterals(parseIP)
    ensures r.Success? <==> rnd.keyPair.Some? && rnd.serialDraw.Some? && rnd.signature.Some?
    ensures r.Success? ==>
      && r.value.hookInstalled
      && |r.value.certificates| == 1
      && |r.value.certificates[0].chain| == 1
      && r.value.certificates[0].chain[0].template.dnsNames == ["*"]
      && r.value.certificates[0].chain[0].template.ipAddresses == []
      && ChainsTo(r.value.certificates[0].chain[0], ca.cert)
      && r.value.nameToCertificate == map["*" := 0]
  {
    match MkCert(WildcardHost, ca, now, rnd, parseIP)
    case Failure(e) => Failure(e)
    case Success(cert) =>
      WildcardHostSans(parseIP);
      SingleNameIndex(cert);
      Success(TlsConfig([cert], NameIndex([cert]), true))
  }

  /** The host list "*" is one token, and not an IP literal: one DNS SAN "*", no IP SAN. */
  lemma WildcardHostSans(parseIP: string -> Option<IpAddr>)
    requires ParsesOnlyIpLiterals(parseIP)
    ensures DnsTokens(Strings.Split(WildcardHost, HostSeparator), parseIP) == [WildcardHost]
    ensures IpTokens(Strings.Split(WildcardHost, HostSeparator), parseIP) == []
  {
    Strings.SplitNoSeparator(WildcardHost, HostSeparator);
    assert !IpLiteralChar(WildcardHost[0]);
    assert parseIP(WildcardHost).None?;
  }

  /** A lone certificate whose leaf has the single DNS SAN "*" is indexed under "*" only. */
  lemma SingleNameIndex(cert: TlsCertificate)
    requires |cert.chain| == 1 && cert.chain[0].template.dnsNames == [WildcardHost]
    ensures NameIndex([cert]) == map[WildcardHost := 0]
  {
    assert [cert][..0] == [];
  }

  /**
   Whatever server name the client asks for, the handshake presents the one
   configured "*" certificate: the hook never overrides it.
   */
  lemma ServedIgnoresServerName(ca: CaMaterial, now: int, rnd: Randomness, parseIP: string -> Option<IpAddr>, hello: ClientHello)
    requires CaPairMatches(ca)
    requires SerialInRange(rnd)
    requires ParsesOnlyIpLiterals(parseIP)
    requires GetTlsConfig(ca, now, rnd, parseIP).Success?
    ensures
      var cfg := GetTlsConfig(ca, now, rnd, parseIP).value;
      && Served(cfg, hello) == Some(cfg.certificates[0])
      && Served(cfg, hello).value.chain[0].template.dnsNames == ["*"]
      && ChainsTo(Served(cfg, hello).value.chain[0], ca.cert)
  {
  }
}
