/** The differential test battery from its texts: each expression as it is typed, against tcpdump's program. */
module Battery {
  import opened Bytes
  import opened Wrappers
  import opened Vm
  import opened Filter
  import opened Numerals
  import opened Grammar
  import opened Printing
  import opened Ranges
  import opened Golden
  import opened Layouts
  import opened Tcpdump
  import opened Frames
  import opened Malformed
  import opened Lexer
  import opened Parser
  import opened Compiler

  /** The text compiles, and its program answers as tcpdump's does, step guard and all. */
  ghost predicate Agree(text: string, golden: Program, p: Packet) {
    Compiled(text).Success? && Answer(golden, p) == Answer(Compiled(text).value, p)
  }

  lemma Spelled(text: string, node: Node, golden: Program, p: Packet)
    requires text == Canonical(node) && WellFormed(node) && Reach(node, 0, 1) <= 255
    ensures Agree(text, golden, p) <==> SameVerdict(node, golden, p)
  {
    CanonicalCompiles(node);
    CompilesIff(node);
  }

  // What the trees look like as text.

  lemma Octets()
    ensures Decimal(192) == "192" && Decimal(168) == "168" && Decimal(1) == "1"
    ensures Decimal(96) == "96" && Decimal(254) == "254"
  {
  }

  lemma Ports()
    ensures Decimal(80) == "80" && Decimal(53) == "53" && Decimal(22) == "22" && Decimal(443) == "443"
    ensures Decimal(51888) == "51888"
  {
  }

  lemma Dots(d: string, cd: string, bcd: string, abcd: string)
    requires cd == "1." + d && bcd == "168." + cd && abcd == "192." + bcd
    ensures WithDots("192", "168", "1", d) == abcd
  {
    assert "1" + ("." + d) == cd;
    assert "168" + ("." + cd) == bcd;
  }

  /** An address from the texts of its octets. */
  lemma AddressText(a: Byte, b: Byte, c: Byte, d: Byte, addr: nat, da: string, db: string, dc: string, dd: string,
                    text: string)
    requires addr == Quad(a, b, c, d)
    requires Decimal(a) == da && Decimal(b) == db && Decimal(c) == dc && Decimal(d) == dd
    requires WithDots(da, db, dc, dd) == text
    ensures DottedQuad(addr) == text
  {
    QuadTextIs(a, b, c, d);
  }

  lemma Addresses(addr: nat, other: nat)
    requires addr == 0xC0A80160 && other == 0xC0A801FE
    ensures DottedQuad(addr) == "192.168.1.96" && DottedQuad(other) == "192.168.1.254"
  {
    Octets();
    Dots("96", "1.96", "168.1.96", "192.168.1.96");
    Dots("254", "1.254", "168.1.254", "192.168.1.254");
    AddressText(192, 168, 1, 96, addr, "192", "168", "1", "96", "192.168.1.96");
    AddressText(192, 168, 1, 254, other, "192", "168", "1", "254", "192.168.1.254");
  }

  /** A `host` from the text of its address. */
  lemma HostText(addr: nat, direction: Option<Direction>, address: string)
    requires DottedQuad(addr) == address
    ensures Canonical(Host(addr, direction)) == DirectionText(direction) + "host " + address
  {
    assert Canonical(Host(addr, direction)) == BareText(Host(addr, direction));
  }

  lemma HostTexts()
    ensures Canonical(Host(0xC0A80160, None)) == "host 192.168.1.96"
    ensures Canonical(Host(0xC0A80160, Some(Src))) == "src host 192.168.1.96"
    ensures Canonical(Host(0xC0A801FE, Some(Dst))) == "dst host 192.168.1.254"
  {
    Addresses(0xC0A80160, 0xC0A801FE);
    HostText(0xC0A80160, None, "192.168.1.96");
    HostText(0xC0A80160, Some(Src), "192.168.1.96");
    HostText(0xC0A801FE, Some(Dst), "192.168.1.254");
    HostLiteral();
    SrcHostLiteral();
    DstHostLiteral();
  }

  lemma HostLiteral()
    ensures DirectionText(None) + "host " + "192.168.1.96" == "host 192.168.1.96"
  {
    assert DirectionText(None) + "host " == "host ";
  }

  lemma SrcHostLiteral()
    ensures DirectionText(Some(Src)) + "host " + "192.168.1.96" == "src host 192.168.1.96"
  {
    assert DirectionText(Some(Src)) + "host " == "src host ";
  }

  lemma DstHostLiteral()
    ensures DirectionText(Some(Dst)) + "host " + "192.168.1.254" == "dst host 192.168.1.254"
  {
    assert DirectionText(Some(Dst)) + "host " == "dst host ";
  }

  lemma PortTexts()
    ensures Canonical(Port(80, None)) == "port 80"
    ensures Canonical(Port(51888, Some(Src))) == "src port 51888"
    ensures Canonical(Port(80, Some(Dst))) == "dst port 80"
    ensures Canonical(Port(443, None)) == "port 443"
  {
    Ports();
  }

  /** Two expressions that need no parentheses under `and`. */
  lemma AndText(left: Node, right: Node)
    requires !left.Or? && !right.Or? && !right.And?
    ensures Canonical(And(left, right)) == Canonical(left) + " and " + Canonical(right)
  {
    assert TextOf(AndExpr, left) == BareText(left) == TextOf(OrExpr, left);
    assert TextOf(NotExpr, right) == BareText(right) == TextOf(OrExpr, right);
    assert BareText(And(left, right)) == TextOf(AndExpr, left) + " and " + TextOf(NotExpr, right);
  }

  lemma TcpAndPortText()
    ensures Canonical(And(Proto(Tcp), Port(80, None))) == "tcp and port 80"
  {
    PortTexts();
    AndText(Proto(Tcp), Port(80, None));
  }

  lemma TcpAndNotPortText()
    ensures Canonical(And(Proto(Tcp), Not(Port(22, None)))) == "tcp and not port 22"
  {
    NotPortText();
    AndText(Proto(Tcp), Not(Port(22, None)));
  }

  lemma NotPortText()
    ensures Canonical(Not(Port(22, None))) == "not port 22"
  {
    Ports();
  }

  lemma OtherTexts()
    ensures Canonical(Or(Proto(Udp), Proto(Icmp))) == "udp or icmp"
    ensures Canonical(Not(Proto(Arp))) == "not arp"
    ensures Canonical(Not(Or(Proto(Tcp), Proto(Udp)))) == "not (tcp or udp)"
  {
  }

  /** A disjunction on the left of `and`. */
  lemma AndOfOrText(left: Node, right: Node)
    requires left.Or? && !right.Or? && !right.And?
    ensures Canonical(And(left, right)) == "(" + Canonical(left) + ")" + " and " + Canonical(right)
  {
    assert TextOf(OrExpr, left) == BareText(left);
    assert TextOf(NotExpr, right) == BareText(right) == TextOf(OrExpr, right);
    assert BareText(And(left, right)) == TextOf(AndExpr, left) + " and " + TextOf(NotExpr, right);
  }

  lemma EitherText()
    ensures Canonical(Or(Proto(Tcp), Proto(Udp))) == "tcp or udp" && Canonical(Port(53, None)) == "port 53"
  {
    Ports();
  }

  lemma NestedText()
    ensures Canonical(And(Or(Proto(Tcp), Proto(Udp)), Port(53, None))) == "(tcp or udp) and port 53"
  {
    EitherText();
    AndOfOrText(Or(Proto(Tcp), Proto(Udp)), Port(53, None));
    assert "(" + "tcp or udp" + ")" == "(tcp or udp)";
  }

  lemma Literals()
    ensures "host 192.168.1.96" + " and " + "port 443" == "host 192.168.1.96 and port 443"
    ensures "src host 192.168.1.96" + " and " + "dst port 80" == "src host 192.168.1.96 and dst port 80"
  {
  }

  lemma HostAndPortTexts()
    ensures Canonical(And(Host(0xC0A80160, None), Port(443, None))) == "host 192.168.1.96 and port 443"
    ensures Canonical(And(Host(0xC0A80160, Some(Src)), Port(80, Some(Dst)))) == "src host 192.168.1.96 and dst port 80"
  {
    Literals();
    HostTexts();
    PortTexts();
    AndText(Host(0xC0A80160, None), Port(443, None));
    AndText(Host(0xC0A80160, Some(Src)), Port(80, Some(Dst)));
  }

  // The verdicts.

  function ProtocolGolden(name: Protocol): Program {
    match name
    case Tcp => TCP
    case Udp => UDP
    case Icmp => ICMP
    case Arp => ARP
    case Ip => IP
    case Ip6 => IP6
  }

  /** The filters the command line looks up before it compiles anything. */
  function Canned(name: Protocol): Option<Program> {
    match name
    case Tcp => Some(CANNED_TCP)
    case Udp => Some(CANNED_UDP)
    case Arp => Some(CANNED_ARP)
    case Ip6 => Some(CANNED_IP6)
    case _ => None
  }

  lemma CannedIsGolden(name: Protocol)
    ensures Canned(name).Some? ==> Canned(name).value == ProtocolGolden(name)
  {
    TransportPrograms();
    EtherTypePrograms();
  }

  lemma ProtocolVerdict(name: Protocol, p: Packet)
    ensures SameVerdict(Proto(name), ProtocolGolden(name), p)
  {
    match name
    case Tcp => TcpVerdict(p);
    case Udp => UdpVerdict(p);
    case Icmp => IcmpVerdict(p);
    case Arp => EtherTypeVerdicts(p);
    case Ip => EtherTypeVerdicts(p);
    case Ip6 => EtherTypeVerdicts(p);
  }

  /** Every protocol word agrees, with tcpdump's program and with the canned filter of that name. */
  lemma ProtocolAgrees(name: Protocol, p: Packet)
    ensures Agree(ProtocolWord(name), ProtocolGolden(name), p)
    ensures Canned(name).Some? ==> Agree(ProtocolWord(name), Canned(name).value, p)
  {
    ProtocolVerdict(name, p);
    WordAgrees(name, ProtocolGolden(name), p);
    CannedIsGolden(name);
  }

  lemma WordAgrees(name: Protocol, golden: Program, p: Packet)
    ensures Agree(ProtocolWord(name), golden, p) <==> SameVerdict(Proto(name), golden, p)
  {
    WordFits(name);
    Spelled(ProtocolWord(name), Proto(name), golden, p);
  }

  lemma WordFits(name: Protocol)
    ensures Reach(Proto(name), 0, 1) <= 255 && Canonical(Proto(name)) == ProtocolWord(name)
  {
  }

  lemma TcpAndPortAgrees(p: Packet)
    ensures Agree("tcp and port 80", TCP_AND_PORT_80, p)
  {
    TcpAndPortText();
    TcpAndPortVerdict(p);
    Spelled("tcp and port 80", And(Proto(Tcp), Port(80, None)), TCP_AND_PORT_80, p);
  }

  lemma UdpOrIcmpAgrees(p: Packet)
    ensures Agree("udp or icmp", UDP_OR_ICMP, p)
  {
    OtherTexts();
    UdpOrIcmpVerdict(p);
    Spelled("udp or icmp", Or(Proto(Udp), Proto(Icmp)), UDP_OR_ICMP, p);
  }

  lemma NotArpAgrees(p: Packet)
    ensures Agree("not arp", NOT_ARP, p)
  {
    OtherTexts();
    NotArpVerdict(p);
    Spelled("not arp", Not(Proto(Arp)), NOT_ARP, p);
  }

  lemma TcpAndNotPortAgrees(p: Packet)
    ensures Agree("tcp and not port 22", TCP_AND_NOT_PORT_22, p)
  {
    TcpAndNotPortText();
    TcpAndNotPortVerdict(p);
    Spelled("tcp and not port 22", And(Proto(Tcp), Not(Port(22, None))), TCP_AND_NOT_PORT_22, p);
  }

  lemma TcpOrUdpAndPortAgrees(p: Packet)
    ensures Agree("(tcp or udp) and port 53", TCP_OR_UDP_AND_PORT_53, p)
  {
    var node := And(Or(Proto(Tcp), Proto(Udp)), Port(53, None));
    NestedText();
    TcpOrUdpAndPortVerdict(p);
    TcpOrUdpAndPortFits(53);
    Spelled("(tcp or udp) and port 53", node, TCP_OR_UDP_AND_PORT_53, p);
  }

  lemma NotTcpOrUdpAgrees(p: Packet)
    ensures Agree("not (tcp or udp)", NOT_TCP_OR_UDP, p)
  {
    OtherTexts();
    NotTcpOrUdpVerdict(p);
    Spelled("not (tcp or udp)", Not(Or(Proto(Tcp), Proto(Udp))), NOT_TCP_OR_UDP, p);
  }

  /** Bare `host` disagrees exactly on the ARP and RARP frames that carry the address. */
  lemma HostsAgreeIff(p: Packet)
    ensures Agree("host 192.168.1.96", HOST_96, p) <==> !ArpCarries(0xC0A80160, None, p)
    ensures Agree("src host 192.168.1.96", SRC_HOST_96, p) <==> !ArpCarries(0xC0A80160, Some(Src), p)
    ensures Agree("dst host 192.168.1.254", DST_HOST_254, p) <==> !ArpCarries(0xC0A801FE, Some(Dst), p)
  {
    HostTexts();
    HostVerdicts(p);
    Spelled("host 192.168.1.96", Host(0xC0A80160, None), HOST_96, p);
    Spelled("src host 192.168.1.96", Host(0xC0A80160, Some(Src)), SRC_HOST_96, p);
    Spelled("dst host 192.168.1.254", Host(0xC0A801FE, Some(Dst)), DST_HOST_254, p);
  }

  /** Bare `port` disagrees exactly on SCTP, and on frames of other EtherTypes that read as IPv4 with the port. */
  lemma PortsAgreeIff(p: Packet)
    ensures Agree("port 80", PORT_80, p) <==> !PortParts(80, None, p)
    ensures Agree("src port 51888", SRC_PORT_51888, p) <==> !PortParts(51888, Some(Src), p)
    ensures Agree("dst port 80", DST_PORT_80, p) <==> !PortParts(80, Some(Dst), p)
  {
    PortTexts();
    PortVerdicts(p);
    Spelled("port 80", Port(80, None), PORT_80, p);
    Spelled("src port 51888", Port(51888, Some(Src)), SRC_PORT_51888, p);
    Spelled("dst port 80", Port(80, Some(Dst)), DST_PORT_80, p);
  }

  /** A host and a port disagree exactly on SCTP between them. */
  lemma HostAndPortsAgreeIff(p: Packet)
    ensures Agree("host 192.168.1.96 and port 443", HOST_96_AND_PORT_443, p) <==>
            !SctpBetween(0xC0A80160, None, 443, None, p)
    ensures Agree("src host 192.168.1.96 and dst port 80", SRC_HOST_96_AND_DST_PORT_80, p) <==>
            !SctpBetween(0xC0A80160, Some(Src), 80, Some(Dst), p)
  {
    HostAndPortTexts();
    HostAndPortVerdicts(p);
    Spelled("host 192.168.1.96 and port 443", And(Host(0xC0A80160, None), Port(443, None)), HOST_96_AND_PORT_443, p);
    Spelled("src host 192.168.1.96 and dst port 80", And(Host(0xC0A80160, Some(Src)), Port(80, Some(Dst))),
            SRC_HOST_96_AND_DST_PORT_80, p);
  }

  /** `tcp or tcp or … or tcp`, as it is typed. */
  function RepeatedTcp(n: nat): string
    requires n > 0
  {
    if n == 1 then "tcp" else RepeatedTcp(n - 1) + " or tcp"
  }

  lemma {:induction false} RepeatedText(n: nat)
    requires n > 0
    ensures WellFormed(OrOfTcp(n)) && Canonical(OrOfTcp(n)) == RepeatedTcp(n)
  {
    if n > 1 {
      RepeatedText(n - 1);
      OneMoreText(OrOfTcp(n - 1), RepeatedTcp(n - 1));
    } else {
      TcpText();
    }
  }

  lemma TcpText()
    ensures TextOf(AndExpr, Proto(Tcp)) == "tcp" && Canonical(Proto(Tcp)) == "tcp"
  {
  }

  lemma OneMoreText(first: Node, text: string)
    requires text == Canonical(first)
    ensures Canonical(Or(first, Proto(Tcp))) == text + " or tcp"
  {
    TcpText();
    BareOfOr(first, Proto(Tcp));
    OrTcpText(text);
  }

  lemma OrTcpText(text: string)
    ensures text + " or " + "tcp" == text + " or tcp"
  {
  }

  /** 21 of them compile and 22 do not, nor any more. */
  lemma TwentyOneTexts(n: nat)
    requires n > 0
    ensures Compiled(RepeatedTcp(n)).Success? <==> n <= 21
  {
    RepeatedText(n);
    CanonicalCompiles(OrOfTcp(n));
    TwentyOneCompile(n);
    CompilesIff(OrOfTcp(n));
  }

  lemma QuadTextIs(a: Byte, b: Byte, c: Byte, d: Byte)
    ensures DottedQuad(Quad(a, b, c, d)) == QuadText(a, b, c, d)
  {
    var addr := Quad(a, b, c, d);
    OctetsOf(addr);
    QuadInjective(a, b, c, d, OctetOf(addr, 0x100_0000), OctetOf(addr, 0x1_0000), OctetOf(addr, 0x100),
                  OctetOf(addr, 1));
  }

  /** An IPv4 frame with the four octets in its source or destination field. */
  predicate CarriesAddress(p: Packet, octets: seq<Byte>) {
    OctetsAt(p, 12, [0x08, 0x00]) && (OctetsAt(p, 26, octets) || OctetsAt(p, 30, octets))
  }

  /** `host a.b.c.d` from the text to the bytes of the frame. */
  lemma HostEndToEnd(a: Byte, b: Byte, c: Byte, d: Byte, p: Packet)
    ensures var text := "host " + QuadText(a, b, c, d);
            && Compiled(text).Success?
            && Answer(Compiled(text).value, p) == Accepting(CarriesAddress(p, [a, b, c, d]))
  {
    var node := Host(Quad(a, b, c, d), None);
    QuadTextIs(a, b, c, d);
    assert DirectionText(None) + "host " == "host ";
    assert Canonical(node) == BareText(node) == DirectionText(None) + "host " + DottedQuad(Quad(a, b, c, d));
    assert Reach(node, 0, 1) <= 255;
    HostOctets(p, a, b, c, d, None);
    CompiledVerdict(node, p);
    CanonicalCompiles(node);
  }

  /** `port`, with or without a direction, from the text of any number up to 65535 to the bytes of the frame. */
  lemma PortEndToEnd(port: nat, direction: Option<Direction>, p: Packet)
    requires port <= 65535
    ensures var text := DirectionText(direction) + "port " + Decimal(port);
            && Compiled(text).Success?
            && Answer(Compiled(text).value, p) == Accepting(PortIn(p, port / 256, port % 256, direction))
  {
    var node := Port(port, direction);
    TextOfPrimitive(port, direction);
    CanonicalPort(port, direction);
    assert Reach(node, 0, 1) <= 255 && Size(node) <= 1000;
    assert Half(port / 256, port % 256) == port;
    PortBytes(port / 256, port % 256, direction, p);
    CompiledVerdict(node, p);
    CanonicalCompiles(node);
  }

  lemma CanonicalPort(port: nat, direction: Option<Direction>)
    ensures Canonical(Port(port, direction)) == BareText(Port(port, direction))
  {
  }

  /** What a keyword and a number lex to. */
  lemma TwoTokens(keyword: string, number: string, text: string)
    requires Genuine(W(keyword)) && Belongs(Number, number) && text == keyword + " " + number
    ensures Lexed(text) == Success([Token(Word, keyword), Token(Number, number)])
  {
    var word, last := Token(Word, keyword), Token(Number, number);
    var ts := [word, last];
    assert word in W(keyword);
    assert Joined(false, [last]) == number && ts[1..] == [last];
    assert keyword + (" " + number) == text;
    JoinedLexes(false, ts);
  }

  /** Any larger number is refused. */
  lemma PortTooLarge(port: nat)
    requires port > 65535
    ensures Compiled("port " + Decimal(port)) == Failure(Syntax(PortOutOfRange(port)))
  {
    var ts := [Token(Word, "port"), Token(Number, Decimal(port))];
    WordsAreGenuine(None);
    assert "port" + " " + Decimal(port) == "port " + Decimal(port);
    TwoTokens("port", Decimal(port), "port " + Decimal(port));
    LexingIsStable("port " + Decimal(port));
    DecimalValue(port);
    PortWords();
    NumberOutOfRange(ts, 0, None, 0);
    SyntaxFails("port " + Decimal(port), ts, PortOutOfRange(port));
  }

  lemma SyntaxFails(text: string, ts: Tokens, e: SyntaxError)
    requires Lexed(text) == Success(ts) && ts != [] && Parse(ts) == Failure(e)
    ensures Compiled(text) == Failure(Syntax(e))
  {
  }

  lemma PortWords()
    ensures "port" != "src" && "port" != "dst" && "port" != "not"
  {
  }

  lemma PortBoundary()
    ensures Compiled("port 65535").Success?
    ensures Compiled("port 65536") == Failure(Syntax(PortOutOfRange(65536)))
  {
    BoundaryTexts();
    PortEndToEnd(65535, None, []);
    PortTooLarge(65536);
  }

  lemma BoundaryTexts()
    ensures DirectionText(None) + "port " + Decimal(65535) == "port 65535"
    ensures "port " + Decimal(65536) == "port 65536"
  {
    assert Decimal(65535) == "65535" && Decimal(65536) == "65536";
    assert DirectionText(None) + "port " == "port ";
  }

  /** The text compiles, and accepts the packet exactly if `accepts`. */
  ghost predicate Accepts(text: string, p: Packet, accepts: bool) {
    Compiled(text).Success? && Answer(Compiled(text).value, p) == Keep(if accepts then 0x40000 else 0)
  }

  lemma WordIsCanonical(name: Protocol)
    ensures Canonical(Proto(name)) == ProtocolWord(name)
  {
  }

  /** A protocol word from the text to the bytes of the frame. */
  lemma WordEndToEnd(name: Protocol, p: Packet)
    ensures Accepts(ProtocolWord(name), p, ProtocolIn(p, name))
  {
    WordIsCanonical(name);
    ProtocolBytes(name, p);
    assert Reach(Proto(name), 0, 1) <= 255 && Size(Proto(name)) <= 1000;
    CompiledVerdict(Proto(name), p);
    CanonicalCompiles(Proto(name));
  }
}
