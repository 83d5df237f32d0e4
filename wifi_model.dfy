/**
 * The scanned access-point records the channel graph is drawn from, and the
 * channel pair that delimits one segment of the graph.
 *
 * A record is compared by identity, that is by its network name (SSID) and
 * hardware address (BSSID) only; its signal values do not take part. A Java
 * `Set<WiFiDetail>` therefore holds at most one record per identity, and is
 * modelled here as a map from identity to the record it holds.
 */
module WiFiModel {

  /** The identity under which records are compared and collected in a set. */
  datatype Identity = Identity(ssid: string, bssid: string)

  /**
   * One detected access point: its names, the centre frequency of its signal
   * in MHz and the measured level in dBm. The records this model covers are
   * 20 MHz wide, with equal primary and centre frequency.
   */
  datatype WiFiDetail = WiFiDetail(ssid: string, bssid: string, frequency: int, level: int)
  {
    function Id(): Identity
    {
      Identity(ssid, bssid)
    }
  }

  /**
   * A set of records under identity equality: each identity in the set maps
   * to the one record the set holds for it.
   */
  type DetailSet = m: map<Identity, WiFiDetail> | forall k :: k in m ==> m[k].Id() == k
    witness map[]

  /** `Set.contains`: membership by identity. */
  predicate Contains(m: DetailSet, d: WiFiDetail)
  {
    d.Id() in m
  }

  /** The two boundary channels of one graph segment, by frequency in MHz. */
  datatype ChannelPair = ChannelPair(first: int, second: int)

  /** The level every record built by the test carries. */
  const Level: int := -40

  /** A 20 MHz record with hardware address "BSSID" and level -40. */
  function MakeWiFiDetail(ssid: string, frequency: int): (d: WiFiDetail)
    ensures d.Id() == Identity(ssid, "BSSID")
    ensures d.frequency == frequency && d.level == Level
  {
    WiFiDetail(ssid, "BSSID", frequency, Level)
  }

  /**
   * Three records at frequencies f, -f and f. They share the hardware
   * address, so their distinct network names make them three identities.
   */
  function MakeWiFiDetails(frequency: int): (ds: seq<WiFiDetail>)
    ensures |ds| == 3
    ensures forall i, j :: 0 <= i < j < |ds| ==> ds[i].Id() != ds[j].Id()
    ensures ds[0].frequency == ds[2].frequency == frequency && ds[1].frequency == -frequency
  {
    [MakeWiFiDetail("SSID1", frequency), MakeWiFiDetail("SSID2", -frequency), MakeWiFiDetail("SSID3", frequency)]
  }
}
