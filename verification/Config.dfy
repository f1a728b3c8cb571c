/** The four names derived from a configured service name. */
module Config {
  import opened Bytes
  import opened Time
  import opened Names

  function ServiceSuffix(): (s: Bytes)
    ensures |s| == 15
  {
    Ascii("_p2p._udp.local")
  }

  function ServiceSuffixFqdn(): Bytes {
    Ascii("_p2p._udp.local.")
  }

  function MetaSuffix(): (s: Bytes)
    ensures |s| == 28
  {
    Ascii("_services._dns-sd._udp.local")
  }

  function MetaSuffixFqdn(): Bytes {
    Ascii("_services._dns-sd._udp.local.")
  }

  function Prefix(name: Bytes): (p: Bytes)
    ensures |p| == if name == [] then 0 else |name| + 2
  {
    if name != [] then Ascii("_") + name + [DOT] else []
  }

  datatype Config = Config(
    ttl: Duration,
    queryInterval: Duration,
    probeInterval: Duration,
    ipv6: bool,
    serviceName: Bytes,
    serviceNameFqdn: Bytes,
    metaQueryService: Bytes,
    metaQueryServiceFqdn: Bytes)
  {
    function ServiceName(name: Bytes): Config {
      this.(serviceName := Prefix(name) + ServiceSuffix(),
            serviceNameFqdn := Prefix(name) + ServiceSuffixFqdn(),
            metaQueryService := Prefix(name) + MetaSuffix(),
            metaQueryServiceFqdn := Prefix(name) + MetaSuffixFqdn())
    }

    /** What the encoder and the classifier both rely on: each FQDN is its name and a final dot,
        and no name is taken for the other. */
    predicate NamesAgree() {
      && serviceNameFqdn == serviceName + [DOT]
      && metaQueryServiceFqdn == metaQueryService + [DOT]
      && serviceNameFqdn != metaQueryServiceFqdn
    }

    /** Names the encoder accepts, all of whose labels have the text form of section 5.1 of RFC 1035. */
    predicate Spellable() {
      && NamesAgree()
      && ValidName(serviceName) && OrdinaryName(serviceName)
      && ValidName(metaQueryService) && OrdinaryName(metaQueryService)
    }
  }

  lemma FqdnSuffixes()
    ensures ServiceSuffixFqdn() == ServiceSuffix() + [DOT] && MetaSuffixFqdn() == MetaSuffix() + [DOT]
  {
  }

  lemma ServiceNamesAgree(config: Config, name: Bytes)
    ensures config.ServiceName(name).NamesAgree()
  {
    hide ServiceSuffix, ServiceSuffixFqdn, MetaSuffix, MetaSuffixFqdn, Prefix;
    FqdnSuffixes();
    Assoc(Prefix(name), ServiceSuffix(), [DOT]);
    Assoc(Prefix(name), MetaSuffix(), [DOT]);
  }

  // ---------------------------------------------------------------- which configured names work

  const SERVICE_LABELS: seq<Bytes> := [Ascii("_p2p"), Ascii("_udp"), Ascii("local")]
  const META_LABELS: seq<Bytes> := [Ascii("_services"), Ascii("_dns-sd"), Ascii("_udp"), Ascii("local")]

  lemma ServiceLabels()
    ensures Split(ServiceSuffix(), DOT) == SERVICE_LABELS
  {
    hide Join, Split;
    JoinOfThree(Ascii("_p2p"), Ascii("_udp"), Ascii("local"), DOT);
    assert Join(SERVICE_LABELS, DOT) == ServiceSuffix();
    SplitOfJoin(SERVICE_LABELS, DOT);
  }

  lemma MetaLabels()
    ensures Split(MetaSuffix(), DOT) == META_LABELS
  {
    hide Join, Split;
    JoinOfFour(Ascii("_services"), Ascii("_dns-sd"), Ascii("_udp"), Ascii("local"), DOT);
    assert Join(META_LABELS, DOT) == MetaSuffix();
    SplitOfJoin(META_LABELS, DOT);
  }

  predicate GoodLabel(l: Bytes) {
    ValidLabel(l) && PlainBytes(l) && OrdinaryLabel(l)
  }

  lemma GoodWord(l: Bytes)
    requires ValidLabel(l) && PlainBytes(l) && (l[0] == 95 || l[0] == 97 || l[0] == 108)
    ensures GoodLabel(l)
  {
    if |l| >= 4 {
      assert Lower(l[..4])[0] != Ascii("xn--")[0];
    }
  }

  lemma SuffixesAreGood()
    ensures forall l :: l in SERVICE_LABELS ==> GoodLabel(l)
    ensures forall l :: l in META_LABELS ==> GoodLabel(l)
  {
    hide GoodLabel;
    GoodWord(Ascii("_p2p"));
    GoodWord(Ascii("_udp"));
    GoodWord(Ascii("local"));
    GoodWord(Ascii("_services"));
    GoodWord(Ascii("_dns-sd"));
  }

  /** A derived name is as good as its first labels. */
  lemma {:induction false} DerivedName(name: Bytes, suffix: Bytes)
    requires forall l :: l in Split(suffix, DOT) ==> GoodLabel(l)
    ensures ValidName(Prefix(name) + suffix) <==> name == [] || ValidName(Ascii("_") + name)
    ensures PlainName(Prefix(name) + suffix) <==> name == [] || PlainName(Ascii("_") + name)
    ensures OrdinaryName(Prefix(name) + suffix) <==> name == [] || OrdinaryName(Ascii("_") + name)
  {
    hide Split, ValidLabel, PlainBytes, OrdinaryLabel;
    if name == [] {
      assert Prefix(name) + suffix == suffix;
    } else {
      SplitAppend(Ascii("_") + name, suffix, DOT);
    }
  }

  /** Which configured names do not make the encoder panic, which have nothing to escape, and which keep
      both derived names within the limit of names. */
  lemma ConfiguredNames(config: Config, name: Bytes)
    ensures var c, own := config.ServiceName(name), Ascii("_") + name;
            && (ValidName(c.serviceName) <==> name == [] || ValidName(own))
            && (ValidName(c.metaQueryService) <==> name == [] || ValidName(own))
            && (PlainName(c.serviceName) <==> name == [] || PlainName(own))
            && (PlainName(c.metaQueryService) <==> name == [] || PlainName(own))
            && (c.Spellable() <==> name == [] || (ValidName(own) && OrdinaryName(own)))
            && (|c.serviceName| <= 253 && |c.metaQueryService| <= 253 <==> |name| <= 223)
  {
    hide ValidName, PlainName, OrdinaryName;
    hide ServiceSuffix, ServiceSuffixFqdn, MetaSuffix, MetaSuffixFqdn, Prefix;
    ServiceNamesAgree(config, name);
    ServiceLabels();
    MetaLabels();
    SuffixesAreGood();
    DerivedName(name, ServiceSuffix());
    DerivedName(name, MetaSuffix());
  }

  /** Some configured names are accepted and plain, and yet too long for the limit of names. */
  lemma LongName(config: Config) returns (name: Bytes)
    ensures var c := config.ServiceName(name);
            c.Spellable() && PlainName(c.serviceName) && |c.serviceName| > 253
  {
    var piece := seq<byte>(62, i => 97);
    name := Join([piece, piece, piece, piece], DOT);
    LongNameIsGood(piece, name);
    ConfiguredNames(config, name);
    assert |name| == 251 by {
      JoinOfFour(piece, piece, piece, piece, DOT);
    }
  }

  lemma LongNameIsGood(piece: Bytes, name: Bytes)
    requires |piece| == 62 && forall i :: 0 <= i < |piece| ==> piece[i] == 97
    requires name == Join([piece, piece, piece, piece], DOT)
    ensures var own := Ascii("_") + name; ValidName(own) && PlainName(own) && OrdinaryName(own)
  {
    var first := Ascii("_") + piece;
    JoinOfFour(piece, piece, piece, piece, DOT);
    JoinOfFour(first, piece, piece, piece, DOT);
    var parts := [first, piece, piece, piece];
    assert Ascii("_") + name == Join(parts, DOT);
    SplitOfJoin(parts, DOT);
    GoodWord(first);
    GoodWord(piece);
  }

  /** Others are short and accepted, but have something to escape. */
  lemma SpacedName(config: Config)
    ensures var c := config.ServiceName(Ascii("a b"));
            c.Spellable() && !PlainName(c.serviceName) && |c.serviceName| <= 253 && |c.metaQueryService| <= 253
  {
    hide ValidName, PlainName, OrdinaryName;
    SpacedLabel();
    ConfiguredNames(config, Ascii("a b"));
  }

  lemma SpacedLabel()
    ensures var own := Ascii("_") + Ascii("a b"); ValidName(own) && OrdinaryName(own) && !PlainName(own)
  {
    var own := Ascii("_") + Ascii("a b");
    assert own == [95, 97, 32, 98];
    SplitOfPiece(own, DOT);
    assert !PlainByte(own[2]) && own in Split(own, DOT);
    assert Lower(own[..4])[0] != Ascii("xn--")[0];
  }
}
