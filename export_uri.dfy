/**
  The "wireguard://" URI: the compact JSON text of a parsed configuration,
  encoded as UTF-8 and written in standard, padded Base 64.  JSON
  serialisation is a parameter of the model (`dumps`).
*/
module ExportUri {
  import opened Wrappers
  import Base64
  import Utf8
  import Seqs

  const Scheme: string := "wireguard://"

  /** `build_wireguard_uri`. */
  function BuildWireguardUri<J>(config: J, dumps: J -> string): (uri: string)
    ensures |uri| >= |Scheme| && uri[..|Scheme|] == Scheme
    ensures (|uri| - |Scheme|) % 4 == 0
    ensures forall i :: |Scheme| <= i < |uri| ==>
      Base64.InAlphabet(Base64.Standard, uri[i]) || (uri[i] == '=' && i >= |uri| - 2)
  {
    var bytes := Utf8.Encode(dumps(config));
    var payload := Base64.Encode(Base64.Standard, bytes);
    Base64.EncodeQuanta(Base64.Standard, bytes);
    Seqs.AppendIndex(Scheme, payload);
    Seqs.AppendSlices(Scheme, payload);
    Scheme + payload
  }

  /** What an importer does with a URI: check the scheme, decode, read the bytes
      as UTF-8 text. */
  function ReadWireguardUri(uri: string): (json: Option<string>)
    ensures json.Some? ==> |uri| >= |Scheme| && uri[..|Scheme|] == Scheme
  {
    if |uri| < |Scheme| || uri[..|Scheme|] != Scheme then None
    else match Base64.Decode(Base64.Standard, uri[|Scheme|..])
      case None => None
      case Some(bytes) => Utf8.Decode(bytes)
  }

  /** The URI carries the exact JSON text. */
  lemma ReadBuild<J>(config: J, dumps: J -> string)
    ensures ReadWireguardUri(BuildWireguardUri(config, dumps)) == Some(dumps(config))
  {
    var bytes := Utf8.Encode(dumps(config));
    var payload := Base64.Encode(Base64.Standard, bytes);
    Seqs.AppendSlices(Scheme, payload);
    Base64.DecodeEncode(Base64.Standard, bytes);
    Utf8.DecodeEncode(dumps(config));
  }

  /** Two configurations share a URI only if their JSON texts are equal. */
  lemma UriInjective<J>(c1: J, c2: J, dumps: J -> string)
    requires BuildWireguardUri(c1, dumps) == BuildWireguardUri(c2, dumps)
    ensures dumps(c1) == dumps(c2)
  {
    ReadBuild(c1, dumps);
    ReadBuild(c2, dumps);
  }
}
