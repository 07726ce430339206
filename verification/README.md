# mitm: DNS answer synthesis and leaf-certificate issuance in Dafny

This project models the two pieces of decision logic at the heart of the
`mitm` interception tool and proves their properties:

- **The DNS responder** (`handler.ServeDNS`). A query with one type A
  question is answered from a static table keyed by the lower-cased name.
  On a miss, a name whose raw spelling contains `ntp` gets the `-ntp`
  address, and otherwise the `-wildcard` address, when those flags are set.
  Each answer is a single A record with class IN and TTL 60 (RFC 1035,
  sections 3.2.2, 3.4.1 and 4.1.1). The AA bit is set for every type A
  question and for nothing else. A query with more than one question stops
  the process.
- **The TLS certificate layer** (`mkCert`, `getTLSConfig`,
  `getCertificateHook`, `publicKey`). This builds the X.509 template of a leaf
  certificate following RFC 5280:
  - key usage (section 4.2.1.3);
  - subject alternative names (section 4.2.1.6);
  - extended key usage (section 4.2.1.12);
  - basic constraints (section 4.2.1.9);
  - validity (section 4.1.2.5);
  - serial number (section 4.1.2.2).

  The layer signs and packages that certificate. It installs exactly one
  certificate, for the host list `*`, in the listener's configuration. Its
  handshake hook only observes the handshake and never picks a certificate.

Files:

- `wrappers.dfy` defines `Option` and `Result`.
- `strings.dfy` defines the Go `strings` functions the core uses (`ToLower`,
  `Contains`, `Split`) plus `Join`, the inverse of `Split`.
- `dns_server.dfy` models the responder. It holds `ServeDns`, an independent
  reading of the decision as an ordered policy list, and worked examples.
- `tls.dfy` models keys, the template, signing, packaging, the TLS
  configuration and the hook.

Fatal exits (`log.Fatal`) are error values in the model: `MultipleQuestions`
for the DNS responder and `CertError` for issuance. Inputs the code gets
from the environment are parameters:

- the clock: `now`, in seconds;
- randomness and the crypto library's results: `Randomness` holds the
  generated P-256 key pair or a failure, the serial-number draw or a
  failure, and the signature bytes or a signing failure;
- `net.ParseIP`: the function parameter `parseIP`. The only thing the model
  assumes about it is `ParsesOnlyIpLiterals`: it accepts only non-empty
  strings made of hexadecimal digits, `.` and `:`.

## Model

| member | source | states |
|---|---|---|
| `Strings.ToLowerIdempotent` | dns/dns_server.go:42-43 | a lowered name has no upper-case letter, and lowering it again leaves it unchanged |
| `Strings.UpperIsNoLowerForm` | dns/dns_server.go:42-43 | no lowered name equals a string that contains an upper-case letter |
| `Strings.ToLower` | dns/dns_server.go:42 | the lowered name has the same length, and each character is the lowered form of the character at the same position: ASCII upper-case letters become lower-case, everything else is kept |
| `Strings.Contains` | dns/dns_server.go:52 | the substring test holds exactly when the keyword occurs at some position of the name |
| `Strings.Split` | http/server/tls.go:77 | splitting the host list yields at least one token, and no token contains a comma |
| `Strings.JoinSplit` | http/server/tls.go:77 | joining the tokens with commas gives back the host list, so splitting loses nothing |
| `Strings.SplitJoin` | http/server/tls.go:77 | splitting a comma-join of comma-free pieces gives back exactly those pieces |
| `Strings.SplitCount` | http/server/tls.go:77 | the number of tokens is the number of commas plus one |
| `DnsServer.ServeDns` | dns/dns_server.go:28-74 | the outcome is fatal exactly when the query has more than one question; a reply echoes the id and the first question and has response bit set; its RCODE is always success; it has at most one answer; it is authoritative exactly for type A; it has no answer for other types; every answer has the lower-cased query name, type A, class IN and TTL 60 |
| `DnsServer.ChooseAddress` | dns/dns_server.go:42-68 | a table hit on the lower-cased name returns the table's address; there is no address exactly when the table misses, the NTP test does not fire and no wildcard is set; any address returned is a table value, the NTP address or the wildcard |
| `DnsServer.FirstMatch` | dns/dns_server.go:43-68 | the chosen policy fires, and no earlier policy in the list fires; if there is no choice, no policy fires |
| `DnsServer.ChooseAddressIsFirstMatch` | dns/dns_server.go:42-68 | the table, then NTP, then wildcard cascade picks the same address as the first firing policy in the ordered list |
| `DnsServer.ServeDnsFollowsPolicies` | dns/dns_server.go:39-69 | a type A question is answered with exactly one record carrying the first firing policy's address, or with none if no policy fires |
| `DnsServer.ExactMatchWins` | dns/dns_server.go:42-49 | a table hit answers authoritatively with the table's address under the lower-cased name, TTL 60; changing the NTP or wildcard setting does not change the reply |
| `DnsServer.NtpFallback` | dns/dns_server.go:50-58 | on a table miss, when the NTP flag is set and the raw name contains "ntp", the only answer carries the NTP address under the lower-cased name, whatever the wildcard |
| `DnsServer.WildcardFallback` | dns/dns_server.go:59-65 | on a table miss where the NTP fallback does not fire, a set wildcard yields one answer with the wildcard address and TTL 60 |
| `DnsServer.NoAnswerStillAuthoritative` | dns/dns_server.go:41-67 | on a miss with neither fallback firing, the reply has no answer, is still authoritative, and has RCODE success |
| `DnsServer.AnsweredIff` | dns/dns_server.go:42-67 | a type A question gets an answer if and only if the table hits, the NTP fallback fires, or the wildcard is set |
| `DnsServer.UpperCaseKeyNeverHit` | dns/dns_server.go:42-43 | a table key that contains an upper-case letter never appears as an answer name |
| `DnsServer.GoogleAnyCase` | dns/dns_server.go:18-49 | `google.com.` in any letter case resolves to 1.2.3.4, authoritatively, with TTL 60 |
| `DnsServer.NtpBeatsWildcard` | dns/dns_server.go:50-58 | `time.ntp.org.` with the NTP flag 10.0.0.5 and wildcard 9.9.9.9 resolves to 10.0.0.5 |
| `DnsServer.UpperCaseNtpGetsWildcard` | dns/dns_server.go:42-65 | `TIME.NTP.ORG.` misses the NTP test, which reads the raw name, and gets the wildcard answer under the name `time.ntp.org.` |
| `DnsServer.UnknownGetsWildcard` | dns/dns_server.go:59-65 | `unknown.example.` with wildcard 9.9.9.9 resolves to 9.9.9.9 |
| `DnsServer.AaaaNotAnswered` | dns/dns_server.go:70-71 | a non-A question about a table name gets no answer and no AA bit |
| `TlsServer.PublicKeyOf` | http/server/tls.go:138-149 | RSA, ECDSA and Ed25519 keys map to their own public half, of the same kind; any other key maps to nil |
| `TlsServer.PublicHalfUnique` | http/server/tls.go:138-149 | a key has exactly one public half, and it is the one `publicKey` returns |
| `TlsServer.AppendSans` | http/server/tls.go:77-84 | the left-to-right loop appends exactly the IP tokens' addresses to the IP list and exactly the other tokens to the DNS list, in their order |
| `TlsServer.SansPartitionTokens` | http/server/tls.go:77-84 | every token lands in exactly one SAN list, chosen by whether it parses as an IP; the two counts add up to the number of tokens |
| `TlsServer.MakeTemplate` | http/server/tls.go:47-84 | DigitalSignature is always set; KeyEncipherment is set if and only if the key is RSA; no other usage is set; notBefore is now minus 24 hours; the validity lasts 365 days and contains now; the serial is the draw (its range [0, 2^128) is what the model assumes of the random source, not a consequence of the template); EKU is exactly [ClientAuth, ServerAuth]; basic constraints are valid and it is not a CA; the subject organization is "Acme Co"; the SANs are the filtered tokens of the split host list |
| `TlsServer.TemplateSansPartitionHosts` | http/server/tls.go:77-84 | the IP and DNS SAN counts add up to the comma count plus one; a host is a DNS SAN exactly when it does not parse as an IP; every parsed IP is an IP SAN |
| `TlsServer.CreateCertificate` | http/server/tls.go:92-95 | signing succeeds exactly with a signature, a usable public key and a signing key whose public half is the parent's public key; any failure is the one creation error; the result copies the template, takes the parent's subject as issuer, records the signer's public half and chains to the parent |
| `TlsServer.PackageKeyPair` | http/server/tls.go:96-105 | the key pair is accepted exactly when the leaf certifies the private key's public half, and the served chain is that leaf alone |
| `TlsServer.PrepareLeaf` | http/server/tls.go:43-63 | key generation fails first, then the serial draw; on success the key is a P-256 ECDSA key built from the generated pair |
| `TlsServer.MkCertAsWritten` | http/server/tls.go:39-107 | succeeds exactly when every random step succeeds and the CA's public key is the fresh leaf key; with any other CA key the outcome is the creation error that ends in the fatal exit; on success the certificate has the promised template, chains to the CA and is signed by its own key |
| `TlsServer.AsWrittenFailsForForeignCa` | http/server/tls.go:92-94 | for a matching CA pair whose key is not the fresh leaf key, the as-written issuance fails with the creation error while signing with the CA key succeeds |
| `TlsServer.AsWrittenCounterexample` | http/server/tls.go:92-94 | for a concrete RSA CA, the as-written issuance fails with the creation error and the CA-signed issuance succeeds |
| `TlsServer.MkCert` | http/server/tls.go:39-107 | each failing step gives its own error, in source order; encoding never fails; on success the certificate has the promised template and chains to the CA |
| `TlsServer.AsWrittenAgreesWhenItSucceeds` | http/server/tls.go:92 | whenever the as-written issuance succeeds, the CA-signed issuance returns the very same certificate |
| `TlsServer.GetCertificateHook` | http/server/tls.go:34-37 | for every ClientHello the hook returns no certificate and no error |
| `TlsServer.NameIndex` | http/server/tls.go:30 | every DNS SAN of each leaf, and the common name of a leaf without DNS SANs, is indexed; each indexed name points at a configured certificate that carries it, and no later certificate carries it, so the last one wins; nothing else is indexed |
| `TlsServer.IndexCertificate` | http/server/tls.go:30 | indexing one more certificate adds exactly the names it carries, points each of them at it, and keeps every other entry |
| `TlsServer.WildcardHostSans` | http/server/tls.go:27 | the host list `*` yields one DNS SAN `*` and no IP SAN |
| `TlsServer.SingleNameIndex` | http/server/tls.go:29-30 | a lone certificate for `*` is indexed under `*` and nothing else |
| `TlsServer.GetTlsConfig` | http/server/tls.go:23-32 | the hook is installed; exactly one certificate is installed; its leaf has DNS SANs exactly ["*"] and no IP SANs; the name index is {"*" to 0}; it succeeds exactly when issuance does |
| `TlsServer.ServedIgnoresServerName` | http/server/tls.go:25-37 | whatever server name the client sends, the handshake presents the one configured `*` certificate |

## Left out

- Logging: every `log.Printf` in the DNS handler and in the hook is left out, because none of them affects the reply.
- Client address: the `net.SplitHostPort` of the client address and its fatal error (dns/dns_server.go:32-35) are left out, because it feeds logging only.
- DNS server process: the UDP server, `main` and flag parsing (dns/dns_server.go:76-85) are left out. The flag values are fields of `Config`.
- Wire format: DNS wire encoding is left out. An answer carries the configured textual address. The conversion by `net.ParseIP` to RDATA is not modelled, including the nil address a non-IP table value would produce.
- Reply header: of the fields the library's `SetReply` copies, only the id, the response bit, the RCODE and the question are modelled. The opcode and the RD and CD bits are not.
- DnsServer.ServeDns: requires at least one question. The source indexes the first question without a guard, so a query with no question is outside what it handles.
- Strings.ToLower: maps only ASCII letters. Go's `strings.ToLower` also lower-cases non-ASCII letters, which DNS presentation-format names do not normally contain.
- Keyword test: the ntp test follows the code, which reads the raw, not lower-cased, name; `UpperCaseNtpGetsWildcard` shows that an upper-case spelling misses it.
- CA loading: `readCA` and `check` (http/server/tls.go:109-136) read files and exit on error. They are left out, and the loaded CA is an input: `CaCert` or `CaMaterial`. `CaPairMatches` is the key-pair check that loading performs.
- Signer check: `CreateCertificate` follows the `crypto/x509` releases that refuse a signing key whose public half is not the parent's public key. Older releases sign anyway and return a certificate that does not verify under the CA's key; that behaviour is not modelled.
- Cryptography: P-256 key generation, signing, PKCS#8 and PEM encoding, and the parsing in `tls.X509KeyPair` are left out. Their outcomes are opaque inputs (`Randomness`). Packaging keeps only the public-key match check and the unsupported-key-type failure.
- Time: time is whole seconds. Nanosecond resolution, time zones and the range limits of Go's `time.Time` are left out.
- TlsServer.Served: certificate selection in the TLS library is modelled only for the hook and for a configuration with a single certificate. Choosing among several static certificates returns `None`, because the configuration here never holds more than one.
- TlsServer.NameIndex: follows the library's `BuildNameToCertificate`. A leaf that fails to parse is not modelled, because every issued certificate has a leaf.
- Listeners: the two listeners, their errgroup coordination, the middleware chain and the 15-second timeouts (http/server/server.go) are left out. This is concurrency and library plumbing.
- Content handler: `DomainHandler` and `fileExists` (http/http_server.go) are left out, because they are file-system I/O.

## Findings

| source | as written | input that shows it | evidently intended | confidence | as-written member | corrected member |
|---|---|---|---|---|---|---|
| http/server/tls.go:92 | The leaf's own freshly generated key goes to `x509.CreateCertificate` as the signer, while the CA certificate is passed as the parent. The library refuses a signer whose public key is not the parent's, so for every CA whose key is not that fresh leaf key the call fails and the process ends in the fatal exit at lines 93-94. | any issuance, for example `AsWrittenCounterexample`: the CA key is RSA and the leaf key is a fresh P-256 key | Sign with the CA's private key. `readCA` loads that key with the certificate but drops it. Then issuance succeeds and clients that trust the CA accept the leaf. | high; not executed | `TlsServer.MkCertAsWritten` | `TlsServer.MkCert` |

`GetTlsConfig` and `ServedIgnoresServerName` are stated over the corrected
`MkCert`. As written, `getTLSConfig` reaches the fatal exit unless the CA's
key is the fresh leaf key (`AsWrittenFailsForForeignCa`); whenever it does
issue, its certificate equals the corrected one
(`AsWrittenAgreesWhenItSucceeds`).
