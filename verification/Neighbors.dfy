// The values that discovery, the device store and the tray exchange.

module Statuses {
  datatype Status = Ok | InvalidArg | NoMemory | IoError | NotFound | Unsupported
}

module Neighbors {
  datatype ConnectionType = UnknownLink | Wifi | Ethernet

  datatype DeviceType =
    | UnknownDevice | Laptop | Mobile | Smartwatch | Printer | Television | Router | Desktop

  // One neighbour entry. Text fields hold the characters before the terminating NUL, so "" is an
  // absent value.
  datatype Neighbor = Neighbor(
    ip: string,
    mac: string,
    hostname: string,
    labelText: string,
    vendor: string,
    icon: string,
    connectionType: ConnectionType,
    deviceType: DeviceType,
    confidence: nat,
    trusted: bool,
    hasTypeOverride: bool,
    active: bool)

  const BLANK := Neighbor("", "", "", "", "", "", UnknownLink, UnknownDevice, 0, false, false, false)

  // Two entries are the same device when both MACs are known and equal, or, when either MAC is
  // missing, when the IPs are equal. The relation is symmetric but not transitive.
  predicate Matches(a: Neighbor, b: Neighbor) {
    if a.mac != "" && b.mac != "" then a.mac == b.mac else a.ip == b.ip
  }

  // No two entries of one snapshot could be taken for the same device.
  ghost predicate PairwiseNonMatching(items: seq<Neighbor>) {
    forall i, j | 0 <= i < j < |items| :: !Matches(items[i], items[j])
  }

  lemma {:induction false} MatchingIsSymmetric(a: Neighbor, b: Neighbor)
    ensures Matches(a, b) <==> Matches(b, a)
  {
  }

  lemma {:induction false} MatchingIsNotTransitive(mac: string, otherMac: string, ip: string)
    requires mac != "" && otherMac != "" && mac != otherMac
    ensures exists a, b, c ::
              Matches(a, b) && Matches(b, a) && Matches(b, c) && Matches(c, b) && !Matches(a, c)
  {
    var a := BLANK.(ip := ip, mac := mac);
    var b := BLANK.(ip := ip);
    var c := BLANK.(ip := ip, mac := otherMac);
    assert Matches(a, b) && Matches(b, a) && Matches(b, c) && Matches(c, b) && !Matches(a, c);
  }
}
