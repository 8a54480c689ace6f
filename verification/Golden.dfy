/**
The programs tcpdump 4.99.1 prints for the differential test battery, and the four canned filters.
*/
module Golden {
  import opened Vm

  function I(code: nat, jt: nat, jf: nat, k: nat): SockFilter {
    SockFilter(code, jt, jf, k)
  }

  /** `tcp` */
  const TCP: Program :=
    [I(0x28, 0, 0, 0xC), I(0x15, 0, 5, 0x86DD), I(0x30, 0, 0, 0x14)]
    + [I(0x15, 6, 0, 0x6), I(0x15, 0, 6, 0x2C), I(0x30, 0, 0, 0x36), I(0x15, 3, 4, 0x6)]
    + [I(0x15, 0, 3, 0x800), I(0x30, 0, 0, 0x17)]
    + [I(0x15, 0, 1, 0x6)]
    + [I(0x06, 0, 0, 0x40000), I(0x06, 0, 0, 0x0)]

  /** `udp` */
  const UDP: Program :=
    [I(0x28, 0, 0, 0xC), I(0x15, 0, 5, 0x86DD), I(0x30, 0, 0, 0x14)]
    + [I(0x15, 6, 0, 0x11), I(0x15, 0, 6, 0x2C), I(0x30, 0, 0, 0x36), I(0x15, 3, 4, 0x11)]
    + [I(0x15, 0, 3, 0x800), I(0x30, 0, 0, 0x17)]
    + [I(0x15, 0, 1, 0x11)]
    + [I(0x06, 0, 0, 0x40000), I(0x06, 0, 0, 0x0)]

  /** `icmp` */
  const ICMP: Program :=
    [
      I(0x28, 0, 0, 0xC), I(0x15, 0, 3, 0x800), I(0x30, 0, 0, 0x17),
      I(0x15, 0, 1, 0x1), I(0x06, 0, 0, 0x40000), I(0x06, 0, 0, 0x0)
    ]

  /** `arp` */
  const ARP: Program :=
    [
      I(0x28, 0, 0, 0xC), I(0x15, 0, 1, 0x806), I(0x06, 0, 0, 0x40000),
      I(0x06, 0, 0, 0x0)
    ]

  /** `ip` */
  const IP: Program :=
    [
      I(0x28, 0, 0, 0xC), I(0x15, 0, 1, 0x800), I(0x06, 0, 0, 0x40000),
      I(0x06, 0, 0, 0x0)
    ]

  /** `ip6` */
  const IP6: Program :=
    [
      I(0x28, 0, 0, 0xC), I(0x15, 0, 1, 0x86DD), I(0x06, 0, 0, 0x40000),
      I(0x06, 0, 0, 0x0)
    ]

  /** `host 192.168.1.96` */
  const HOST_96: Program :=
    [
      I(0x28, 0, 0, 0xC), I(0x15, 0, 4, 0x800), I(0x20, 0, 0, 0x1A),
      I(0x15, 8, 0, 0xC0A80160), I(0x20, 0, 0, 0x1E), I(0x15, 6, 7, 0xC0A80160),
      I(0x15, 1, 0, 0x806), I(0x15, 0, 5, 0x8035), I(0x20, 0, 0, 0x1C),
      I(0x15, 2, 0, 0xC0A80160), I(0x20, 0, 0, 0x26), I(0x15, 0, 1, 0xC0A80160),
      I(0x06, 0, 0, 0x40000), I(0x06, 0, 0, 0x0)
    ]

  /** `src host 192.168.1.96` */
  const SRC_HOST_96: Program :=
    [
      I(0x28, 0, 0, 0xC), I(0x15, 0, 2, 0x800), I(0x20, 0, 0, 0x1A),
      I(0x15, 4, 5, 0xC0A80160), I(0x15, 1, 0, 0x806), I(0x15, 0, 3, 0x8035),
      I(0x20, 0, 0, 0x1C), I(0x15, 0, 1, 0xC0A80160), I(0x06, 0, 0, 0x40000),
      I(0x06, 0, 0, 0x0)
    ]

  /** `dst host 192.168.1.254` */
  const DST_HOST_254: Program :=
    [
      I(0x28, 0, 0, 0xC), I(0x15, 0, 2, 0x800), I(0x20, 0, 0, 0x1E),
      I(0x15, 4, 5, 0xC0A801FE), I(0x15, 1, 0, 0x806), I(0x15, 0, 3, 0x8035),
      I(0x20, 0, 0, 0x26), I(0x15, 0, 1, 0xC0A801FE), I(0x06, 0, 0, 0x40000),
      I(0x06, 0, 0, 0x0)
    ]

  /** `port 80` */
  const PORT_80: Program :=
    [I(0x28, 0, 0, 0xC), I(0x15, 0, 8, 0x86DD), I(0x30, 0, 0, 0x14)]
    + ([I(0x15, 2, 0, 0x84), I(0x15, 1, 0, 0x6), I(0x15, 0, 17, 0x11)]
       + [I(0x28, 0, 0, 0x36), I(0x15, 14, 0, 0x50), I(0x28, 0, 0, 0x38), I(0x15, 12, 13, 0x50)])
    + [I(0x15, 0, 12, 0x800), I(0x30, 0, 0, 0x17)]
    + ([I(0x15, 2, 0, 0x84), I(0x15, 1, 0, 0x6), I(0x15, 0, 8, 0x11)]
       + [I(0x28, 0, 0, 0x14), I(0x45, 6, 0, 0x1FFF), I(0xB1, 0, 0, 0xE),
          I(0x48, 0, 0, 0xE), I(0x15, 2, 0, 0x50), I(0x48, 0, 0, 0x10), I(0x15, 0, 1, 0x50)])
    + [I(0x06, 0, 0, 0x40000), I(0x06, 0, 0, 0x0)]

  /** `src port 51888` */
  const SRC_PORT_51888: Program :=
    [I(0x28, 0, 0, 0xC), I(0x15, 0, 6, 0x86DD), I(0x30, 0, 0, 0x14)]
    + ([I(0x15, 2, 0, 0x84), I(0x15, 1, 0, 0x6), I(0x15, 0, 13, 0x11)]
       + [I(0x28, 0, 0, 0x36), I(0x15, 10, 11, 0xCAB0)])
    + [I(0x15, 0, 10, 0x800), I(0x30, 0, 0, 0x17)]
    + ([I(0x15, 2, 0, 0x84), I(0x15, 1, 0, 0x6), I(0x15, 0, 6, 0x11)]
       + [I(0x28, 0, 0, 0x14), I(0x45, 4, 0, 0x1FFF), I(0xB1, 0, 0, 0xE),
          I(0x48, 0, 0, 0xE), I(0x15, 0, 1, 0xCAB0)])
    + [I(0x06, 0, 0, 0x40000), I(0x06, 0, 0, 0x0)]

  /** `dst port 80` */
  const DST_PORT_80: Program :=
    [I(0x28, 0, 0, 0xC), I(0x15, 0, 6, 0x86DD), I(0x30, 0, 0, 0x14)]
    + ([I(0x15, 2, 0, 0x84), I(0x15, 1, 0, 0x6), I(0x15, 0, 13, 0x11)]
       + [I(0x28, 0, 0, 0x38), I(0x15, 10, 11, 0x50)])
    + [I(0x15, 0, 10, 0x800), I(0x30, 0, 0, 0x17)]
    + ([I(0x15, 2, 0, 0x84), I(0x15, 1, 0, 0x6), I(0x15, 0, 6, 0x11)]
       + [I(0x28, 0, 0, 0x14), I(0x45, 4, 0, 0x1FFF), I(0xB1, 0, 0, 0xE),
          I(0x48, 0, 0, 0x10), I(0x15, 0, 1, 0x50)])
    + [I(0x06, 0, 0, 0x40000), I(0x06, 0, 0, 0x0)]

  /** `tcp and port 80` */
  const TCP_AND_PORT_80: Program :=
    [I(0x28, 0, 0, 0xC), I(0x15, 0, 6, 0x86DD), I(0x30, 0, 0, 0x14)]
    + ([I(0x15, 0, 15, 0x6)]
       + [I(0x28, 0, 0, 0x36), I(0x15, 12, 0, 0x50), I(0x28, 0, 0, 0x38), I(0x15, 10, 11, 0x50)])
    + [I(0x15, 0, 10, 0x800), I(0x30, 0, 0, 0x17)]
    + ([I(0x15, 0, 8, 0x6)]
       + [I(0x28, 0, 0, 0x14), I(0x45, 6, 0, 0x1FFF), I(0xB1, 0, 0, 0xE),
          I(0x48, 0, 0, 0xE), I(0x15, 2, 0, 0x50), I(0x48, 0, 0, 0x10), I(0x15, 0, 1, 0x50)])
    + [I(0x06, 0, 0, 0x40000), I(0x06, 0, 0, 0x0)]

  /** `udp or icmp` */
  const UDP_OR_ICMP: Program :=
    [I(0x28, 0, 0, 0xC), I(0x15, 0, 5, 0x86DD), I(0x30, 0, 0, 0x14)]
    + [I(0x15, 7, 0, 0x11), I(0x15, 0, 7, 0x2C), I(0x30, 0, 0, 0x36), I(0x15, 4, 5, 0x11)]
    + [I(0x15, 0, 4, 0x800), I(0x30, 0, 0, 0x17)]
    + [I(0x15, 1, 0, 0x11), I(0x15, 0, 1, 0x1)]
    + [I(0x06, 0, 0, 0x40000), I(0x06, 0, 0, 0x0)]

  /** `not arp` */
  const NOT_ARP: Program :=
    [
      I(0x28, 0, 0, 0xC), I(0x15, 0, 1, 0x806), I(0x06, 0, 0, 0x0),
      I(0x06, 0, 0, 0x40000)
    ]

  /** `(tcp or udp) and port 53` */
  const TCP_OR_UDP_AND_PORT_53: Program :=
    [I(0x28, 0, 0, 0xC), I(0x15, 0, 8, 0x86DD), I(0x30, 0, 0, 0x14)]
    + ([I(0x15, 2, 0, 0x6), I(0x15, 17, 0, 0x2C), I(0x15, 0, 16, 0x11)]
       + [I(0x28, 0, 0, 0x36), I(0x15, 13, 0, 0x35), I(0x28, 0, 0, 0x38), I(0x15, 11, 12, 0x35)])
    + [I(0x15, 0, 11, 0x800), I(0x30, 0, 0, 0x17)]
    + ([I(0x15, 1, 0, 0x6), I(0x15, 0, 8, 0x11)]
       + [I(0x28, 0, 0, 0x14), I(0x45, 6, 0, 0x1FFF), I(0xB1, 0, 0, 0xE),
          I(0x48, 0, 0, 0xE), I(0x15, 2, 0, 0x35), I(0x48, 0, 0, 0x10), I(0x15, 0, 1, 0x35)])
    + [I(0x06, 0, 0, 0x40000), I(0x06, 0, 0, 0x0)]

  /** `tcp and not port 22` */
  const TCP_AND_NOT_PORT_22: Program :=
    [I(0x28, 0, 0, 0xC), I(0x15, 0, 9, 0x86DD), I(0x30, 0, 0, 0x14)]
    + ([I(0x15, 0, 4, 0x6)]
       + ([I(0x28, 0, 0, 0x36), I(0x15, 16, 0, 0x16), I(0x28, 0, 0, 0x38), I(0x15, 14, 13, 0x16)]
          + [I(0x15, 0, 13, 0x2C), I(0x30, 0, 0, 0x36), I(0x15, 10, 11, 0x6)]))
    + [I(0x15, 0, 10, 0x800), I(0x30, 0, 0, 0x17)]
    + ([I(0x15, 0, 8, 0x6)]
       + [I(0x28, 0, 0, 0x14), I(0x45, 5, 0, 0x1FFF), I(0xB1, 0, 0, 0xE),
          I(0x48, 0, 0, 0xE), I(0x15, 3, 0, 0x16), I(0x48, 0, 0, 0x10), I(0x15, 1, 0, 0x16)])
    + [I(0x06, 0, 0, 0x40000), I(0x06, 0, 0, 0x0)]

  /** `host 192.168.1.96 and port 443` */
  const HOST_96_AND_PORT_443: Program :=
    [I(0x28, 0, 0, 0xC), I(0x15, 0, 16, 0x800)]
    + [I(0x20, 0, 0, 0x1A), I(0x15, 2, 0, 0xC0A80160), I(0x20, 0, 0, 0x1E), I(0x15, 0, 12, 0xC0A80160)]
    + [I(0x30, 0, 0, 0x17)]
    + ([I(0x15, 2, 0, 0x84), I(0x15, 1, 0, 0x6), I(0x15, 0, 8, 0x11)]
       + [I(0x28, 0, 0, 0x14), I(0x45, 6, 0, 0x1FFF), I(0xB1, 0, 0, 0xE),
          I(0x48, 0, 0, 0xE), I(0x15, 2, 0, 0x1BB), I(0x48, 0, 0, 0x10), I(0x15, 0, 1, 0x1BB)])
    + [I(0x06, 0, 0, 0x40000), I(0x06, 0, 0, 0x0)]

  /** `not (tcp or udp)` */
  const NOT_TCP_OR_UDP: Program :=
    [
      I(0x28, 0, 0, 0xC), I(0x15, 0, 5, 0x86DD), I(0x30, 0, 0, 0x14),
      I(0x15, 7, 0, 0x6), I(0x15, 0, 5, 0x2C), I(0x30, 0, 0, 0x36),
      I(0x15, 4, 3, 0x6), I(0x15, 0, 4, 0x800), I(0x30, 0, 0, 0x17),
      I(0x15, 1, 0, 0x6), I(0x15, 0, 1, 0x11), I(0x06, 0, 0, 0x0),
      I(0x06, 0, 0, 0x40000)
    ]

  /** `src host 192.168.1.96 and dst port 80` */
  const SRC_HOST_96_AND_DST_PORT_80: Program :=
    [I(0x28, 0, 0, 0xC), I(0x15, 0, 12, 0x800)]
    + [I(0x20, 0, 0, 0x1A), I(0x15, 0, 10, 0xC0A80160)]
    + [I(0x30, 0, 0, 0x17)]
    + ([I(0x15, 2, 0, 0x84), I(0x15, 1, 0, 0x6), I(0x15, 0, 6, 0x11)]
       + [I(0x28, 0, 0, 0x14), I(0x45, 4, 0, 0x1FFF), I(0xB1, 0, 0, 0xE), I(0x48, 0, 0, 0x10), I(0x15, 0, 1, 0x50)])
    + [I(0x06, 0, 0, 0x40000), I(0x06, 0, 0, 0x0)]

  /** The canned `tcp` filter. */
  const CANNED_TCP: Program :=
    [I(0x28, 0, 0, 0xC), I(0x15, 0, 5, 0x86DD), I(0x30, 0, 0, 0x14)]
    + [I(0x15, 6, 0, 0x6), I(0x15, 0, 6, 0x2C), I(0x30, 0, 0, 0x36), I(0x15, 3, 4, 0x6)]
    + [I(0x15, 0, 3, 0x800), I(0x30, 0, 0, 0x17)]
    + [I(0x15, 0, 1, 0x6)]
    + [I(0x06, 0, 0, 0x40000), I(0x06, 0, 0, 0x0)]

  /** The canned `udp` filter. */
  const CANNED_UDP: Program :=
    [I(0x28, 0, 0, 0xC), I(0x15, 0, 5, 0x86DD), I(0x30, 0, 0, 0x14)]
    + [I(0x15, 6, 0, 0x11), I(0x15, 0, 6, 0x2C), I(0x30, 0, 0, 0x36), I(0x15, 3, 4, 0x11)]
    + [I(0x15, 0, 3, 0x800), I(0x30, 0, 0, 0x17)]
    + [I(0x15, 0, 1, 0x11)]
    + [I(0x06, 0, 0, 0x40000), I(0x06, 0, 0, 0x0)]

  /** The canned `arp` filter. */
  const CANNED_ARP: Program :=
    [
      I(0x28, 0, 0, 0xC), I(0x15, 0, 1, 0x806), I(0x06, 0, 0, 0x40000),
      I(0x06, 0, 0, 0x0)
    ]

  /** The canned `ip6` filter. */
  const CANNED_IP6: Program :=
    [
      I(0x28, 0, 0, 0xC), I(0x15, 0, 1, 0x86DD), I(0x06, 0, 0, 0x40000),
      I(0x06, 0, 0, 0x0)
    ]
}
