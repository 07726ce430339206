/**
 The answer-synthesis logic of the DNS responder (`handler.ServeDNS`).

 A query carrying exactly one question of type A is answered from a static
 table keyed by lower-cased names; on a miss, a name containing "ntp" gets the
 configured NTP address, and otherwise the configured wildcard address, if
 any. The reply copies the query's id and first question, as the DNS library's
 `SetReply` does, and never carries an error RCODE. A query with several
 questions stops the process; that outcome is `MultipleQuestions`.
 */
module DnsServer {
  import opened Wrappers
  import Strings

  /** An unsigned 16-bit header or resource-record field. */
  newtype uint16 = x: int | 0 <= x < 0x1_0000

  /** TYPE value of an A record (RFC 1035, section 3.2.2). */
  const TypeA: uint16 := 1
  /** TYPE value of an AAAA record (RFC 3596, section 2.1); used in examples only. */
  const TypeAAAA: uint16 := 28
  /** CLASS value of the Internet class (RFC 1035, section 3.2.4). */
  const ClassINET: uint16 := 1
  /** TTL, in seconds, of every synthesised answer. */
  const AnswerTtl: nat := 60
  /** RCODE 0, "no error condition" (RFC 1035, section 4.1.1). */
  const RcodeSuccess: nat := 0

  datatype Question = Question(name: string, qtype: uint16, qclass: uint16)

  datatype Query = Query(id: uint16, questions: seq<Question>)

  /** An A resource record; `address` is the configured textual IPv4 address of its RDATA. */
  datatype ARecord = ARecord(name: string, rrtype: uint16, rclass: uint16, ttl: nat, address: string)

  /** The reply header fields the responder decides, its question and its answers. */
  datatype Reply = Reply(
    id: uint16,
    response: bool,
    authoritative: bool,
    rcode: nat,
    question: seq<Question>,
    answers: seq<ARecord>)

  datatype Outcome = MultipleQuestions | Sent(reply: Reply)

  /**
   The responder's configuration: the static name table, the NTP address
   (the `-ntp` flag) and the wildcard address (the `-wildcard` flag); an
   empty address means the flag is unset.
   */
  datatype Config = Config(domains: map<string, string>, ntp: string, wildcard: string)

  /** The compiled-in name table. */
  const DefaultDomains: map<string, string> := map[
    "google.com." := "1.2.3.4",
    "pool.ntp.org." := "192.168.2.1",
    "api.luxorone.com." := "192.168.7.2",
    "resident-api.luxerone.com." := "192.168.7.2",
    "apple.com." := "192.168.7.2"
  ]

  /** The substring that selects the NTP fallback. */
  const NtpKeyword: string := "ntp"

  /** The single A record the responder sends for `domain`. */
  function AnswerRecord(domain: string, address: string): ARecord {
    ARecord(domain, TypeA, ClassINET, AnswerTtl, address)
  }

  /** The address chosen for a type A question about `name`, if any. */
  function ChooseAddress(cfg: Config, name: string): (r: Option<string>)
    ensures Strings.ToLower(name) in cfg.domains ==> r == Some(cfg.domains[Strings.ToLower(name)])
    ensures r.None? <==> Strings.ToLower(name) !in cfg.domains && !NtpFires(cfg, name) && cfg.wildcard == ""
    ensures r.Some? ==> r.value in cfg.domains.Values || r.value == cfg.ntp || r.value == cfg.wildcard
  {
    var domain := Strings.ToLower(name);
    if domain in cfg.domains then Some(cfg.domains[domain])
    else if |cfg.ntp| > 0 && Strings.Contains(name, NtpKeyword) then Some(cfg.ntp)
    else if |cfg.wildcard| > 0 then Some(cfg.wildcard)
    else None
  }

  /** `handler.ServeDNS`: the reply sent for query `r`, or the fatal stop. */
  function ServeDns(cfg: Config, r: Query): (o: Outcome)
    requires |r.questions| >= 1
    ensures o.MultipleQuestions? <==> |r.questions| > 1
    ensures o.Sent? ==>
      && o.reply.id == r.id
      && o.reply.response
      && o.reply.rcode == RcodeSuccess
      && o.reply.question == [r.questions[0]]
      && |o.reply.answers| <= 1
    ensures o.Sent? ==> (o.reply.authoritative <==> r.questions[0].qtype == TypeA)
    ensures o.Sent? && r.questions[0].qtype != TypeA ==> o.reply.answers == []
    ensures o.Sent? ==> forall a :: a in o.reply.answers ==>
      && a.name == Strings.ToLower(r.questions[0].name)
      && a.rrtype == TypeA
      && a.rclass == ClassINET
      && a.ttl == AnswerTtl
  {
    if |r.questions| > 1 then MultipleQuestions
    else
      var q := r.questions[0];
      var header := Reply(r.id, true, false, RcodeSuccess, [q], []);
      if q.qtype == TypeA then
        var domain := Strings.ToLower(q.name);
        match ChooseAddress(cfg, q.name)
        case Some(address) => Sent(header.(authoritative := true, answers := [AnswerRecord(domain, address)]))
        case None => Sent(header.(authoritative := true))
      else
        Sent(header)
  }

  // ---------------------------------------------------------------------------
  // An independent description of the decision: an ordered list of policies,
  // the first that fires supplies the address.
  // ---------------------------------------------------------------------------

  datatype Policy =
    | ExactMatch(table: map<string, string>)
    | Keyword(word: string, address: string)
    | CatchAll(address: string)

  /** The address a single policy offers for `name`, if it fires. */
  function Fires(p: Policy, name: string): Option<string> {
    match p
    case ExactMatch(table) =>
      var key := Strings.ToLower(name);
      if key in table then Some(table[key]) else None
    case Keyword(word, address) =>
      if |address| > 0 && Strings.Contains(name, word) then Some(address) else None
    case CatchAll(address) =>
      if |address| > 0 then Some(address) else None
  }

  /** The responder's policies, in the order they are consulted. */
  function Policies(cfg: Config): seq<Policy> {
    [ExactMatch(cfg.domains), Keyword(NtpKeyword, cfg.ntp), CatchAll(cfg.wildcard)]
  }

  /** Index of the first policy that fires for `name`. */
  function FirstMatch(ps: seq<Policy>, name: string): (r: Option<nat>)
    ensures r.Some? ==> r.value < |ps| && Fires(ps[r.value], name).Some?
    ensures r.Some? ==> forall j :: 0 <= j < r.value ==> Fires(ps[j], name).None?
    ensures r.None? ==> forall j :: 0 <= j < |ps| ==> Fires(ps[j], name).None?
    decreases |ps|
  {
    if |ps| == 0 then None
    else if Fires(ps[0], name).Some? then Some(0)
    else
      match FirstMatch(ps[1..], name)
      case None => None
      case Some(i) => Some(i + 1)
  }

  /** The address the first firing policy offers, if any policy fires. */
  function PolicyAnswer(cfg: Config, name: string): Option<string> {
    var ps := Policies(cfg);
    match FirstMatch(ps, name)
    case None => None
    case Some(i) => Fires(ps[i], name)
  }

  /** The table-then-NTP-then-wildcard choice is the first-match reading of the policy list. */
  lemma ChooseAddressIsFirstMatch(cfg: Config, name: string)
    ensures ChooseAddress(cfg, name) == PolicyAnswer(cfg, name)
  {
    var ps := Policies(cfg);
    assert ps[0] == ExactMatch(cfg.domains);
    assert ps[1] == Keyword(NtpKeyword, cfg.ntp);
    assert ps[2] == CatchAll(cfg.wildcard);
    match FirstMatch(ps, name)
    case None =>
      assert Fires(ps[0], name).None? && Fires(ps[1], name).None? && Fires(ps[2], name).None?;
    case Some(i) =>
      if i == 0 {
      } else if i == 1 {
        assert Fires(ps[0], name).None?;
      } else {
        assert Fires(ps[0], name).None? && Fires(ps[1], name).None?;
      }
  }

  /** The responder answers a type A question exactly as the first firing policy says. */
  lemma ServeDnsFollowsPolicies(cfg: Config, r: Query)
    requires |r.questions| == 1 && r.questions[0].qtype == TypeA
    ensures ServeDns(cfg, r).Sent?
    ensures ServeDns(cfg, r).reply.answers ==
      match PolicyAnswer(cfg, r.questions[0].name)
      case None => []
      case Some(a) => [AnswerRecord(Strings.ToLower(r.questions[0].name), a)]
  {
    ChooseAddressIsFirstMatch(cfg, r.questions[0].name);
  }

  // ---------------------------------------------------------------------------
  // The precedence rules, one at a time.
  // ---------------------------------------------------------------------------

  /** A single type A question about `name`. */
  predicate IsAQuery(r: Query) {
    |r.questions| == 1 && r.questions[0].qtype == TypeA
  }

  /**
   An exact hit answers with the table's address under the lower-cased name,
   and the fallbacks play no part: any NTP or wildcard setting gives the same reply.
   */
  lemma ExactMatchWins(cfg: Config, r: Query, ntp: string, wildcard: string)
    requires IsAQuery(r)
    requires Strings.ToLower(r.questions[0].name) in cfg.domains
    ensures
      var domain := Strings.ToLower(r.questions[0].name);
      && ServeDns(cfg, r).Sent?
      && ServeDns(cfg, r).reply.authoritative
      && ServeDns(cfg, r).reply.answers == [ARecord(domain, TypeA, ClassINET, 60, cfg.domains[domain])]
    ensures ServeDns(cfg.(ntp := ntp, wildcard := wildcard), r) == ServeDns(cfg, r)
  {
    ServeDnsFollowsPolicies(cfg, r);
    ServeDnsFollowsPolicies(cfg.(ntp := ntp, wildcard := wildcard), r);
  }

  /** Whether the NTP fallback fires: the flag is set and the raw, not lower-cased, name contains "ntp". */
  ghost predicate NtpFires(cfg: Config, name: string) {
    |cfg.ntp| > 0 && exists i :: Strings.OccursAt(name, "ntp", i)
  }

  /**
   On a miss the NTP fallback, when it fires, answers with the NTP address
   under the lower-cased name, whatever the wildcard setting.
   */
  lemma NtpFallback(cfg: Config, r: Query)
    requires IsAQuery(r)
    requires Strings.ToLower(r.questions[0].name) !in cfg.domains
    requires NtpFires(cfg, r.questions[0].name)
    ensures ServeDns(cfg, r).Sent?
    ensures ServeDns(cfg, r).reply.authoritative
    ensures ServeDns(cfg, r).reply.answers ==
      [ARecord(Strings.ToLower(r.questions[0].name), TypeA, ClassINET, 60, cfg.ntp)]
  {
    ServeDnsFollowsPolicies(cfg, r);
  }

  /** On a miss where the NTP fallback does not fire, a set wildcard answers with its address. */
  lemma WildcardFallback(cfg: Config, r: Query)
    requires IsAQuery(r)
    requires Strings.ToLower(r.questions[0].name) !in cfg.domains
    requires !NtpFires(cfg, r.questions[0].name)
    requires |cfg.wildcard| > 0
    ensures ServeDns(cfg, r).Sent?
    ensures ServeDns(cfg, r).reply.authoritative
    ensures ServeDns(cfg, r).reply.answers ==
      [ARecord(Strings.ToLower(r.questions[0].name), TypeA, ClassINET, 60, cfg.wildcard)]
  {
    ServeDnsFollowsPolicies(cfg, r);
  }

  /** On a miss with neither fallback firing the reply is empty but still authoritative. */
  lemma NoAnswerStillAuthoritative(cfg: Config, r: Query)
    requires IsAQuery(r)
    requires Strings.ToLower(r.questions[0].name) !in cfg.domains
    requires !NtpFires(cfg, r.questions[0].name)
    requires cfg.wildcard == ""
    ensures ServeDns(cfg, r).Sent?
    ensures ServeDns(cfg, r).reply.authoritative
    ensures ServeDns(cfg, r).reply.answers == []
    ensures ServeDns(cfg, r).reply.rcode == RcodeSuccess
  {
    ServeDnsFollowsPolicies(cfg, r);
  }

  /** A type A question is answered exactly when some policy fires; the reply never depends on anything else. */
  lemma AnsweredIff(cfg: Config, r: Query)
    requires IsAQuery(r)
    ensures ServeDns(cfg, r).Sent?
    ensures |ServeDns(cfg, r).reply.answers| == 1 <==>
      || Strings.ToLower(r.questions[0].name) in cfg.domains
      || NtpFires(cfg, r.questions[0].name)
      || |cfg.wildcard| > 0
  {
    ServeDnsFollowsPolicies(cfg, r);
  }

  /** A table key with an upper-case letter can never be hit, since lookups use the lower-cased name. */
  lemma UpperCaseKeyNeverHit(cfg: Config, r: Query, key: string)
    requires IsAQuery(r)
    requires key in cfg.domains
    requires exists i :: 0 <= i < |key| && Strings.IsUpper(key[i])
    ensures ServeDns(cfg, r).Sent?
    ensures forall a :: a in ServeDns(cfg, r).reply.answers ==> a.name != key
  {
    Strings.UpperIsNoLowerForm(key, r.questions[0].name);
  }

  // ---------------------------------------------------------------------------
  // Worked examples.
  // ---------------------------------------------------------------------------

  /** `google.com.`, in any letter case, resolves to 1.2.3.4 from the compiled-in table, authoritatively, with TTL 60. */
  lemma GoogleAnyCase(name: string, ntp: string, wildcard: string, id: uint16)
    requires Strings.ToLower(name) == "google.com."
    ensures
      var r := Query(id, [Question(name, TypeA, ClassINET)]);
      ServeDns(Config(DefaultDomains, ntp, wildcard), r) ==
        Sent(Reply(id, true, true, 0, r.questions, [ARecord("google.com.", TypeA, ClassINET, 60, "1.2.3.4")]))
  {
  }

  /** A lower-case name containing "ntp" that misses the table gets the NTP address even with a wildcard set. */
  lemma NtpBeatsWildcard(id: uint16)
    ensures
      var r := Query(id, [Question("time.ntp.org.", TypeA, ClassINET)]);
      ServeDns(Config(DefaultDomains, "10.0.0.5", "9.9.9.9"), r).reply.answers ==
        [ARecord("time.ntp.org.", TypeA, ClassINET, 60, "10.0.0.5")]
  {
    var name := "time.ntp.org.";
    Strings.ToLowerOfLower(name);
    assert name !in DefaultDomains by {
      assert name[0] != "pool.ntp.org."[0];
    }
    assert Strings.OccursAt(name, "ntp", 5);
    NtpFallback(Config(DefaultDomains, "10.0.0.5", "9.9.9.9"), Query(id, [Question(name, TypeA, ClassINET)]));
  }

  /**
   The NTP test looks at the raw name: the upper-case spelling of the same
   name misses it and falls through to the wildcard, although the answer
   carries the lower-cased name.
   */
  lemma UpperCaseNtpGetsWildcard(id: uint16)
    ensures
      var r := Query(id, [Question("TIME.NTP.ORG.", TypeA, ClassINET)]);
      ServeDns(Config(DefaultDomains, "10.0.0.5", "9.9.9.9"), r).reply.answers ==
        [ARecord("time.ntp.org.", TypeA, ClassINET, 60, "9.9.9.9")]
  {
    var name := "TIME.NTP.ORG.";
    var lower := "time.ntp.org.";
    assert Strings.ToLower(name) == lower by {
      forall i | 0 <= i < |name| ensures Strings.ToLower(name)[i] == lower[i] {
        assert Strings.LowerChar(name[i]) == lower[i];
      }
    }
    assert lower !in DefaultDomains by {
      assert lower[0] != "pool.ntp.org."[0];
    }
    forall i | 0 <= i && i + 3 <= |name| ensures !Strings.OccursAt(name, "ntp", i) {
      assert name[i..i + 3][0] == name[i] != 'n';
    }
    WildcardFallback(Config(DefaultDomains, "10.0.0.5", "9.9.9.9"), Query(id, [Question(name, TypeA, ClassINET)]));
  }

  /** An unknown name gets the wildcard address. */
  lemma UnknownGetsWildcard(id: uint16)
    ensures
      var r := Query(id, [Question("unknown.example.", TypeA, ClassINET)]);
      ServeDns(Config(DefaultDomains, "", "9.9.9.9"), r).reply.answers ==
        [ARecord("unknown.example.", TypeA, ClassINET, 60, "9.9.9.9")]
  {
    var name := "unknown.example.";
    Strings.ToLowerOfLower(name);
    assert name !in DefaultDomains;
    WildcardFallback(Config(DefaultDomains, "", "9.9.9.9"), Query(id, [Question(name, TypeA, ClassINET)]));
  }

  /** An AAAA question for a table name is not answered and the reply is not authoritative. */
  lemma AaaaNotAnswered(id: uint16)
    ensures
      var r := Query(id, [Question("google.com.", TypeAAAA, ClassINET)]);
      var o := ServeDns(Config(DefaultDomains, "10.0.0.5", "9.9.9.9"), r);
      o.Sent? && !o.reply.authoritative && o.reply.answers == []
  {
  }
}
