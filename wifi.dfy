/** Saved Wi-Fi networks: the de-duplicating save and the ordered connect attempts. */
module Wifi {

  datatype Credential = Credential(ssid: string, password: string)

  predicate HasSsid(networks: seq<Credential>, ssid: string) {
    exists i :: 0 <= i < |networks| && networks[i].ssid == ssid
  }

  /** No two stored entries share an ssid. */
  predicate UniqueSsids(networks: seq<Credential>) {
    forall i, j :: 0 <= i < j < |networks| ==> networks[i].ssid != networks[j].ssid
  }

  /** save_credentials on the stored list: append unless the ssid is already there. */
  function SaveCredential(networks: seq<Credential>, ssid: string, password: string): seq<Credential> {
    if HasSsid(networks, ssid) then networks else networks + [Credential(ssid, password)]
  }

  /** Saving keeps the ssids unique, keeps every earlier entry in its place, and
      leaves the ssid stored; an ssid already stored keeps its first password. */
  lemma {:induction false} SaveCredentialProperties(networks: seq<Credential>, ssid: string, password: string)
    requires UniqueSsids(networks)
    ensures UniqueSsids(SaveCredential(networks, ssid, password))
    ensures SaveCredential(networks, ssid, password)[..|networks|] == networks
    ensures HasSsid(SaveCredential(networks, ssid, password), ssid)
    ensures |SaveCredential(networks, ssid, password)| == |networks| + (if HasSsid(networks, ssid) then 0 else 1)
  {
    var r := SaveCredential(networks, ssid, password);
    if !HasSsid(networks, ssid) {
      assert r[|networks|].ssid == ssid;
      forall i, j | 0 <= i < j < |r| ensures r[i].ssid != r[j].ssid {
        if j == |networks| {
          assert networks[i].ssid != ssid;
        }
      }
    }
  }

  /** A second save of the same ssid changes nothing, whatever its password. */
  lemma {:induction false} SaveCredentialIdempotent(networks: seq<Credential>, ssid: string, p1: string, p2: string)
    ensures SaveCredential(SaveCredential(networks, ssid, p1), ssid, p2) == SaveCredential(networks, ssid, p1)
  {
    var r := SaveCredential(networks, ssid, p1);
    if !HasSsid(networks, ssid) {
      assert r[|networks|].ssid == ssid;
    }
  }

  /** Some stored network is accepted by the radio. */
  predicate AnyAccepted(credentials: seq<Credential>, accepts: Credential -> bool) {
    exists i :: 0 <= i < |credentials| && accepts(credentials[i])
  }

  /** connect_to_wifi: try the stored networks in order until the radio accepts
      one. `accepts` stands for the radio's connect call with its 30-second timeout
      (true when it returns, false when it raises). `tried` lists the attempts made. */
  method ConnectToWifi(credentials: seq<Credential>, accepts: Credential -> bool)
    returns (connected: bool, tried: seq<Credential>)
    ensures |tried| <= |credentials| && tried == credentials[..|tried|]
    ensures forall k :: 0 <= k < |tried| - 1 ==> !accepts(tried[k])
    ensures connected <==> tried != [] && accepts(tried[|tried| - 1])
    ensures !connected ==> tried == credentials
    ensures connected <==> AnyAccepted(credentials, accepts)
  {
    tried := [];
    if |credentials| == 0 {
      return false, tried;
    }
    var i := 0;
    while i < |credentials|
      invariant 0 <= i <= |credentials|
      invariant tried == credentials[..i]
      invariant forall k :: 0 <= k < i ==> !accepts(credentials[k])
    {
      tried := tried + [credentials[i]];
      if accepts(credentials[i]) {
        return true, tried;
      }
      i := i + 1;
    }
    return false, tried;
  }
}
