/**
 * Cinema mode (`trigger_cinema_mode`, monitor.py:37-42): the outbound HTTP GETs issued when
 * the playback flag changes, as the list of URLs in the order they are requested.
 * The configured hosts are parameters; an empty host means "not configured".
 */
module Cinema {

  /** The lights endpoint: `dim` when playback starts, `normal` when it stops. */
  function LightsUrl(lightsHost: string, on: bool): string
  {
    "http://" + lightsHost + "/lights/" + (if on then "dim" else "normal")
  }

  /** The fan endpoint, only ever switched off. */
  function FanOffUrl(fanHost: string): string
  {
    "http://" + fanHost + "/fan/off"
  }

  lemma LastOfConcat(a: string, b: string)
    requires b != []
    ensures (a + b)[|a + b| - 1] == b[|b| - 1]
  {
  }

  /**
   * The three kinds of URL end in different characters ('m' for dim, 'l' for normal, 'f' for
   * off), so no two of them coincide, whatever the hosts are.
   */
  lemma UrlsDiffer(lightsHost: string, fanHost: string)
    ensures LightsUrl(lightsHost, true) != LightsUrl(lightsHost, false)
    ensures LightsUrl(lightsHost, true) != FanOffUrl(fanHost)
    ensures LightsUrl(lightsHost, false) != FanOffUrl(fanHost)
  {
    var prefix := "http://" + lightsHost + "/lights/";
    LastOfConcat(prefix, "dim");
    LastOfConcat(prefix, "normal");
    LastOfConcat("http://" + fanHost, "/fan/off");
    assert LightsUrl(lightsHost, true) == prefix + "dim";
    assert LightsUrl(lightsHost, false) == prefix + "normal";
  }

  /**
   * The calls of one cinema-mode switch: exactly one lights call when the lights host is set,
   * ending in the mode that matches `on`; the fan `off` call only when switching off with a fan
   * host set; nothing else, so no call at all when neither host is set.
   */
  function CinemaModeUrls(on: bool, lightsHost: string, fanHost: string): (urls: seq<string>)
    ensures LightsUrl(lightsHost, on) in urls <==> lightsHost != ""
    ensures LightsUrl(lightsHost, !on) !in urls
    ensures FanOffUrl(fanHost) in urls <==> fanHost != "" && !on
    ensures forall u :: u in urls ==> u == LightsUrl(lightsHost, on) || u == FanOffUrl(fanHost)
    ensures |urls| == (if lightsHost != "" then 1 else 0) + (if fanHost != "" && !on then 1 else 0)
    ensures lightsHost == "" && fanHost == "" ==> urls == []
  {
    UrlsDiffer(lightsHost, fanHost);
    (if lightsHost != "" then [LightsUrl(lightsHost, on)] else [])
    + (if fanHost != "" && !on then [FanOffUrl(fanHost)] else [])
  }
}
