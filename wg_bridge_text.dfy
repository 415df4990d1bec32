/**
 * The texts the bridge state (src/bridge/state.go) writes: the UAPI
 * configurations it hands to wireguard-go (one `key=value` line each,
 * every line ending in '\n') and the client configuration file it exports.
 */
module WgBridgeText {
  import opened Wrappers
  import opened Strings
  import WgDb
  import WgServer
  import WgTunnels
  import WgKeys

  /** A value that can sit on one configuration line. */
  predicate OneLine(s: string)
  {
    '\n' !in s
  }

  lemma IntOneLine(i: int)
    ensures OneLine(IntToString(i))
  {
    var s := IntToString(i);
    if i >= 0 {
      assert forall k :: 0 <= k < |s| ==> s[k] != '\n';
    } else {
      assert s == "-" + NatToString(-i);
      assert forall k :: 0 <= k < |s| ==> s[k] != '\n' by {
        forall k | 0 <= k < |s| ensures s[k] != '\n' {
          if k > 0 {
            assert s[k] == NatToString(-i)[k - 1];
          }
        }
      }
    }
  }

  /** A line-free prefix before a line-free value keeps the line whole. */
  lemma Prefixed(prefix: string, value: string)
    requires OneLine(prefix) && OneLine(value)
    ensures OneLine(prefix + value)
  {
    assert forall k :: 0 <= k < |prefix + value| ==> (prefix + value)[k] == if k < |prefix| then prefix[k] else value[k - |prefix|];
  }

  /** Text made of lines: they split back out, followed by the empty text after the last '\n'. */
  lemma LinesBack(ls: seq<string>)
    requires forall i :: 0 <= i < |ls| ==> OneLine(ls[i])
    ensures Split(Terminated(ls), '\n') == ls + [""]
  {
    SplitTerminated(ls);
  }

  // ---------------------------------------------------------------------
  // UAPI configurations
  // ---------------------------------------------------------------------

  /** The lines of the device configuration `Start` applies: key, port, and the fwmark when it is set. */
  function DeviceLines(privateKey: string, listenPort: int, fwmark: int): seq<string>
  {
    ["private_key=" + privateKey, "listen_port=" + IntToString(listenPort)]
      + (if fwmark != 0 then ["fwmark=" + IntToString(fwmark)] else [])
  }

  function DeviceConfig(privateKey: string, listenPort: int, fwmark: int): string
  {
    Terminated(DeviceLines(privateKey, listenPort, fwmark))
  }

  /**
   * The device configuration carries exactly the key, the port and, iff the
   * fwmark is not 0, the fwmark, in that order.
   */
  lemma DeviceConfigLines(privateKey: string, listenPort: int, fwmark: int)
    requires OneLine(privateKey)
    ensures Split(DeviceConfig(privateKey, listenPort, fwmark), '\n') ==
              ["private_key=" + privateKey, "listen_port=" + IntToString(listenPort)]
              + (if fwmark != 0 then ["fwmark=" + IntToString(fwmark)] else []) + [""]
    ensures fwmark == 0 <==> |Split(DeviceConfig(privateKey, listenPort, fwmark), '\n')| == 3
  {
    var ls := DeviceLines(privateKey, listenPort, fwmark);
    assert forall i :: 0 <= i < |ls| ==> OneLine(ls[i]) by {
      IntOneLine(listenPort);
      IntOneLine(fwmark);
      Prefixed("private_key=", privateKey);
      Prefixed("listen_port=", IntToString(listenPort));
      Prefixed("fwmark=", IntToString(fwmark));
    }
    LinesBack(ls);
  }

  /**
   * The lines of a peer's configuration, as `AddClient` and
   * `addPeerToDevice` write them: an IPv6 address adds a second
   * `allowed_ip` line after the keepalive.
   */
  function PeerLines(publicKey: string, presharedKey: string, ip: string, ipV6: string, keepalive: int): seq<string>
  {
    ["public_key=" + publicKey, "preshared_key=" + presharedKey, "allowed_ip=" + ip,
     "persistent_keepalive_interval=" + IntToString(keepalive)]
      + (if ipV6 != "" then ["allowed_ip=" + ipV6] else [])
  }

  function PeerConfig(publicKey: string, presharedKey: string, ip: string, ipV6: string, keepalive: int): string
  {
    Terminated(PeerLines(publicKey, presharedKey, ip, ipV6, keepalive))
  }

  /** `addPeerToDevice`'s configuration for a stored client. */
  function ClientPeerConfig(c: WgDb.Client): string
  {
    PeerConfig(c.publicKey, c.presharedKey, c.allowedIp, c.allowedIpV6, c.keepalive)
  }

  /** The address lines of a peer configuration: the IPv4 one, then the IPv6 one exactly when there is one. */
  function AllowedIpValues(lines: seq<string>): seq<string>
  {
    if lines == [] then []
    else (if StartsWith(lines[0], "allowed_ip=") then [lines[0][11..]] else []) + AllowedIpValues(lines[1..])
  }

  lemma ValuesSkip(x: string, rest: seq<string>)
    requires |x| > 0 && x[0] != 'a'
    ensures AllowedIpValues([x] + rest) == AllowedIpValues(rest)
  {
    assert ([x] + rest)[1..] == rest;
  }

  lemma ValuesTake(v: string, rest: seq<string>)
    ensures AllowedIpValues(["allowed_ip=" + v] + rest) == [v] + AllowedIpValues(rest)
  {
    var x := "allowed_ip=" + v;
    assert ([x] + rest)[1..] == rest;
    assert StartsWith(x, "allowed_ip=") && x[11..] == v;
  }

  /** A peer configuration splits back into its lines. */
  lemma PeerConfigLines(publicKey: string, presharedKey: string, ip: string, ipV6: string, keepalive: int)
    requires OneLine(publicKey) && OneLine(presharedKey) && OneLine(ip) && OneLine(ipV6)
    ensures Split(PeerConfig(publicKey, presharedKey, ip, ipV6, keepalive), '\n') ==
              PeerLines(publicKey, presharedKey, ip, ipV6, keepalive) + [""]
  {
    var ls := PeerLines(publicKey, presharedKey, ip, ipV6, keepalive);
    assert forall i :: 0 <= i < |ls| ==> OneLine(ls[i]) by {
      IntOneLine(keepalive);
      Prefixed("public_key=", publicKey);
      Prefixed("preshared_key=", presharedKey);
      Prefixed("allowed_ip=", ip);
      Prefixed("persistent_keepalive_interval=", IntToString(keepalive));
      Prefixed("allowed_ip=", ipV6);
    }
    LinesBack(ls);
  }

  /** The addresses a peer configuration grants: the IPv4 one, then the IPv6 one exactly when there is one. */
  lemma PeerConfigAddresses(publicKey: string, presharedKey: string, ip: string, ipV6: string, keepalive: int)
    ensures AllowedIpValues(PeerLines(publicKey, presharedKey, ip, ipV6, keepalive)) ==
              [ip] + (if ipV6 != "" then [ipV6] else [])
  {
    var a, b := "public_key=" + publicKey, "preshared_key=" + presharedKey;
    var d := "persistent_keepalive_interval=" + IntToString(keepalive);
    var tail: seq<string> := if ipV6 != "" then ["allowed_ip=" + ipV6] else [];
    assert PeerLines(publicKey, presharedKey, ip, ipV6, keepalive) == [a] + ([b] + (["allowed_ip=" + ip] + ([d] + tail)));
    assert a[0] == 'p' && b[0] == 'p' && d[0] == 'p';
    ValuesSkip(a, [b] + (["allowed_ip=" + ip] + ([d] + tail)));
    ValuesSkip(b, ["allowed_ip=" + ip] + ([d] + tail));
    ValuesTake(ip, [d] + tail);
    ValuesSkip(d, tail);
    if ipV6 != "" {
      ValuesTake(ipV6, []);
      assert ["allowed_ip=" + ipV6] + [] == tail;
    }
  }

  /** `RemoveClient` and `DisableClient`: drop the peer from the device. */
  function RemoveLines(publicKey: string): seq<string>
  {
    ["public_key=" + publicKey, "remove=true"]
  }

  function RemoveConfig(publicKey: string): string
  {
    Terminated(RemoveLines(publicKey))
  }

  lemma RemoveConfigLines(publicKey: string)
    requires OneLine(publicKey)
    ensures Split(RemoveConfig(publicKey), '\n') == ["public_key=" + publicKey, "remove=true", ""]
  {
    var ls := RemoveLines(publicKey);
    assert forall i :: 0 <= i < |ls| ==> OneLine(ls[i]) by { Prefixed("public_key=", publicKey); }
    LinesBack(ls);
    assert ls + [""] == ["public_key=" + publicKey, "remove=true", ""];
  }

  /** `SetServerConfig`'s device update: the fwmark alone. */
  function FwmarkConfig(fwmark: int): string
  {
    Terminated(["fwmark=" + IntToString(fwmark)])
  }

  lemma FwmarkConfigLines(fwmark: int)
    ensures Split(FwmarkConfig(fwmark), '\n') == ["fwmark=" + IntToString(fwmark), ""]
  {
    var ls := ["fwmark=" + IntToString(fwmark)];
    assert OneLine(ls[0]) by {
      IntOneLine(fwmark);
      Prefixed("fwmark=", IntToString(fwmark));
    }
    LinesBack(ls);
  }

  /** `startMultihopDevice`'s device lines: the key, then the port when positive and the fwmark when set. */
  function HopDeviceLines(t: WgTunnels.Tunnel): seq<string>
  {
    ["private_key=" + t.privateKey]
      + (if t.listenPort > 0 then ["listen_port=" + IntToString(t.listenPort)] else [])
      + (if t.fwmark != 0 then ["fwmark=" + IntToString(t.fwmark)] else [])
  }

  function HopDeviceConfig(t: WgTunnels.Tunnel): string
  {
    Terminated(HopDeviceLines(t))
  }

  /** `startMultihopDevice`'s peer lines: the remote peer, then its preshared key when there is one. */
  function HopPeerLines(t: WgTunnels.Tunnel): seq<string>
  {
    ["public_key=" + t.remotePublicKey, "endpoint=" + t.remoteEndpoint, "allowed_ip=" + t.remoteAllowedIps,
     "persistent_keepalive_interval=" + IntToString(t.remoteKeepalive)]
      + (if t.remotePresharedKey != "" then ["preshared_key=" + t.remotePresharedKey] else [])
  }

  function HopPeerConfig(t: WgTunnels.Tunnel): string
  {
    Terminated(HopPeerLines(t))
  }

  /**
   * A hop's device configuration has one line for the key, one more iff
   * the port is positive and one more iff the fwmark is set.
   */
  lemma HopDeviceConfigLines(t: WgTunnels.Tunnel)
    requires OneLine(t.privateKey)
    ensures Split(HopDeviceConfig(t), '\n') == HopDeviceLines(t) + [""]
    ensures |HopDeviceLines(t)| == 1 + (if t.listenPort > 0 then 1 else 0) + (if t.fwmark != 0 then 1 else 0)
  {
    var ls := HopDeviceLines(t);
    assert forall i :: 0 <= i < |ls| ==> OneLine(ls[i]) by {
      IntOneLine(t.listenPort);
      IntOneLine(t.fwmark);
      Prefixed("private_key=", t.privateKey);
      Prefixed("listen_port=", IntToString(t.listenPort));
      Prefixed("fwmark=", IntToString(t.fwmark));
    }
    LinesBack(ls);
  }

  /** A hop's peer configuration ends with the preshared key iff there is one. */
  lemma HopPeerConfigLines(t: WgTunnels.Tunnel)
    requires OneLine(t.remotePublicKey) && OneLine(t.remoteEndpoint) && OneLine(t.remoteAllowedIps) && OneLine(t.remotePresharedKey)
    ensures Split(HopPeerConfig(t), '\n') == HopPeerLines(t) + [""]
    ensures t.remotePresharedKey != "" <==> |HopPeerLines(t)| == 5
    ensures t.remotePresharedKey != "" ==> HopPeerLines(t)[4] == "preshared_key=" + t.remotePresharedKey
  {
    var ls := HopPeerLines(t);
    assert forall i :: 0 <= i < |ls| ==> OneLine(ls[i]) by {
      IntOneLine(t.remoteKeepalive);
      Prefixed("public_key=", t.remotePublicKey);
      Prefixed("endpoint=", t.remoteEndpoint);
      Prefixed("allowed_ip=", t.remoteAllowedIps);
      Prefixed("persistent_keepalive_interval=", IntToString(t.remoteKeepalive));
      Prefixed("preshared_key=", t.remotePresharedKey);
    }
    LinesBack(ls);
  }

  // ---------------------------------------------------------------------
  // ExportClientConfig
  // ---------------------------------------------------------------------

  /** A trailing host prefix `host` replaced by the network prefix `net`, when the text is longer than `host`. */
  function Widen(ip: string, host: string, net: string): string
  {
    if |ip| > |host| && ip[|ip| - |host|..] == host then ip[..|ip| - |host|] + net else ip
  }

  /** The `Address` line's value: the IPv4 address widened to /24, then the IPv6 one widened to /64. */
  function ExportAddress(ip: string, ipV6: string): string
  {
    Widen(ip, "/32", "/24") + (if ipV6 != "" then ", " + Widen(ipV6, "/128", "/64") else "")
  }

  /** A host address becomes the address of its /24 network; other text is left as it is. */
  lemma ExportAddressV4(addr: string, ip: string)
    requires addr != ""
    ensures ExportAddress(addr + "/32", "") == addr + "/24"
    ensures !EndsWith(ip, "/32") ==> ExportAddress(ip, "") == ip
    ensures ExportAddress("/32", "") == "/32"
  {
    var s := addr + "/32";
    assert s[|s| - 3..] == "/32" && s[..|s| - 3] == addr;
  }

  /** An IPv6 host address is widened to /64 and follows the IPv4 part after ", ". */
  lemma ExportAddressV6(ip: string, addr6: string)
    requires addr6 != ""
    ensures ExportAddress(ip, addr6 + "/128") == Widen(ip, "/32", "/24") + ", " + addr6 + "/64"
  {
    var s := addr6 + "/128";
    assert s[|s| - 4..] == "/128" && s[..|s| - 4] == addr6;
  }

  /** Everything but IPv4, or dual stack when the client has an IPv6 address. */
  function ExportAllowedIps(ipV6: string): string
  {
    if ipV6 != "" then "0.0.0.0/0, ::/0" else "0.0.0.0/0"
  }

  lemma ExportAllowedIpsDual(ipV6: string)
    ensures ExportAllowedIps(ipV6) == "0.0.0.0/0, ::/0" <==> ipV6 != ""
    ensures ipV6 == "" ==> ExportAllowedIps(ipV6) == "0.0.0.0/0"
  {
    assert "0.0.0.0/0" != "0.0.0.0/0, ::/0" by {
      assert |"0.0.0.0/0"| != |"0.0.0.0/0, ::/0"|;
    }
  }

  /** The fields of an exported client configuration. */
  datatype ClientConf = ClientConf(
    privateKey: string,
    address: string,
    dns: string,
    mtu: int,
    serverPublicKey: string,
    presharedKey: string,
    allowedIps: string,
    endpoint: string)

  /** The exported file: an `[Interface]` section, a blank line, a `[Peer]` section. */
  function ConfLines(c: ClientConf): seq<string>
  {
    ["[Interface]",
     "PrivateKey = " + c.privateKey,
     "Address = " + c.address,
     "DNS = " + c.dns,
     "MTU = " + IntToString(c.mtu),
     "",
     "[Peer]",
     "PublicKey = " + c.serverPublicKey,
     "PresharedKey = " + c.presharedKey,
     "AllowedIPs = " + c.allowedIps,
     "Endpoint = " + c.endpoint,
     "PersistentKeepalive = 25"]
  }

  function ConfText(c: ClientConf): string
  {
    Terminated(ConfLines(c))
  }

  /** The exported text splits back into its twelve lines, field by field. */
  lemma ConfTextLines(c: ClientConf)
    requires OneLine(c.privateKey) && OneLine(c.address) && OneLine(c.dns) && OneLine(c.serverPublicKey)
    requires OneLine(c.presharedKey) && OneLine(c.allowedIps) && OneLine(c.endpoint)
    ensures Split(ConfText(c), '\n') == ConfLines(c) + [""]
    ensures |ConfLines(c)| == 12 && ConfLines(c)[2] == "Address = " + c.address && ConfLines(c)[10] == "Endpoint = " + c.endpoint
  {
    var ls := ConfLines(c);
    assert forall i :: 0 <= i < |ls| ==> OneLine(ls[i]) by {
      IntOneLine(c.mtu);
      Prefixed("PrivateKey = ", c.privateKey);
      Prefixed("Address = ", c.address);
      Prefixed("DNS = ", c.dns);
      Prefixed("MTU = ", IntToString(c.mtu));
      Prefixed("PublicKey = ", c.serverPublicKey);
      Prefixed("PresharedKey = ", c.presharedKey);
      Prefixed("AllowedIPs = ", c.allowedIps);
      Prefixed("Endpoint = ", c.endpoint);
    }
    LinesBack(ls);
  }

  /**
   * The text of Go's `hex` errors. `%#U` adds the quoted character when
   * `strconv.IsPrint` holds for it; for the Latin-1 range an invalid byte
   * falls in, that is U+0020 to U+007E and U+00A1 to U+00FF except the soft
   * hyphen U+00AD.
   */
  function HexMessage(e: WgKeys.HexError): string
  {
    match e
    case OddLength => "encoding/hex: odd length hex string"
    case InvalidByte(c) =>
      "encoding/hex: invalid byte: U+" + UpperHex(c as int, 4)
        + (if Printable(c) then " '" + [c] + "'" else "")
  }

  /** `strconv.IsPrint` on the characters up to U+00FF. */
  predicate Printable(c: char)
  {
    (' ' <= c <= '~') || ('\U{00A1}' <= c <= '\U{00FF}' && c != '\U{00AD}')
  }

  /** Upper-case hex digits of `n`, at least `width` of them. */
  function UpperHex(n: nat, width: nat): (s: string)
    ensures |s| >= width
    decreases n + width
  {
    var d := "0123456789ABCDEF"[n % 16];
    if n < 16 && width <= 1 then [d]
    else UpperHex(n / 16, if width > 0 then width - 1 else 0) + [d]
  }

  /** The endpoint and DNS the export uses: the given ones, or the server's when they are empty. */
  function FillEndpoint(cfg: Option<WgServer.ServerConfig>, endpoint: string): string
  {
    if cfg.Some? && endpoint == "" then cfg.value.endpoint else endpoint
  }

  function FillDns(cfg: Option<WgServer.ServerConfig>, dns: string): string
  {
    if cfg.Some? && dns == "" then cfg.value.DnsString() else dns
  }

  /**
   * `ExportClientConfig` once the client and the device record are read:
   * the three keys are converted to base64 in the order private, server
   * public, preshared, and the first that is not hex is the error.
   */
  function ExportConf(client: WgDb.Client, dev: WgDb.DeviceRecord, cfg: Option<WgServer.ServerConfig>,
                      endpoint: string, dns: string): (r: Result<ClientConf, string>)
  {
    match WgKeys.HexToBase64(client.privateKey)
    case Err(e) => Err("key convert: " + HexMessage(e))
    case Ok(priv) =>
      match WgKeys.HexToBase64(dev.publicKey)
      case Err(e) => Err("key convert: " + HexMessage(e))
      case Ok(pub) =>
        match WgKeys.HexToBase64(client.presharedKey)
        case Err(e) => Err("key convert: " + HexMessage(e))
        case Ok(psk) =>
          Ok(ClientConf(priv, ExportAddress(client.allowedIp, client.allowedIpV6), FillDns(cfg, dns),
                        if cfg.Some? then cfg.value.mtu else 1420, pub, psk,
                        ExportAllowedIps(client.allowedIpV6), FillEndpoint(cfg, endpoint)))
  }

  /**
   * What the export promises: it fails iff one of the three keys is not
   * hex; otherwise the keys are the base64 of the stored bytes, the MTU is
   * the server's or 1420 without a server configuration, the endpoint and
   * DNS come from the server configuration only when not given, and the
   * AllowedIPs are dual stack iff the client has an IPv6 address.
   */
  lemma ExportConfSpec(client: WgDb.Client, dev: WgDb.DeviceRecord, cfg: Option<WgServer.ServerConfig>,
                       endpoint: string, dns: string)
    ensures ExportConf(client, dev, cfg, endpoint, dns).Ok? <==>
              WgKeys.HexDecode(client.privateKey).Ok? && WgKeys.HexDecode(dev.publicKey).Ok? && WgKeys.HexDecode(client.presharedKey).Ok?
    ensures WgKeys.HexDecode(client.privateKey).Err? ==>
              ExportConf(client, dev, cfg, endpoint, dns) == Err("key convert: " + HexMessage(WgKeys.HexDecode(client.privateKey).error))
    ensures ExportConf(client, dev, cfg, endpoint, dns).Ok? ==>
              var c := ExportConf(client, dev, cfg, endpoint, dns).value;
              && WgKeys.Base64Decode(c.privateKey) == Some(WgKeys.HexDecode(client.privateKey).value)
              && WgKeys.Base64Decode(c.serverPublicKey) == Some(WgKeys.HexDecode(dev.publicKey).value)
              && WgKeys.Base64Decode(c.presharedKey) == Some(WgKeys.HexDecode(client.presharedKey).value)
              && c.mtu == (if cfg.Some? then cfg.value.mtu else 1420)
              && (endpoint != "" ==> c.endpoint == endpoint)
              && (endpoint == "" && cfg.Some? ==> c.endpoint == cfg.value.endpoint)
              && (dns != "" ==> c.dns == dns)
              && (dns == "" && cfg.Some? ==> c.dns == cfg.value.DnsString())
              && (c.allowedIps == "0.0.0.0/0, ::/0" <==> client.allowedIpV6 != "")
              && c.address == ExportAddress(client.allowedIp, client.allowedIpV6)
  {
    ExportAllowedIpsDual(client.allowedIpV6);
  }
}
