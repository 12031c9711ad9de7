/** Spoofing the device's manufacturer, brand and model so the player picks
    a different video codec. */
module CodecOverride {

  /** The settings the patch reads: the codec override switch, the vendor
      flag (true for Samsung, false for Google) and the Opus switch. */
  datatype CodecSettings = CodecSettings(enableVideoCodec: bool, samsung: bool, enableOpusCodec: bool)

  /** A device identity a spoof can claim. */
  datatype Vendor = Samsung | Google

  function ManufacturerOf(v: Vendor): string
  {
    match v
    case Samsung => "Samsung"
    case Google => "Google"
  }

  function BrandOf(v: Vendor): string
  {
    match v
    case Samsung => "samsung"
    case Google => "google"
  }

  function ModelOf(v: Vendor): string
  {
    match v
    case Samsung => "SM-G955W"
    case Google => "Pixel 7 Pro"
  }

  /** The vendor the settings claim. */
  function Chosen(s: CodecSettings): Vendor
  {
    if s.samsung then Samsung else Google
  }

  function GetManufacturer(s: CodecSettings, manufacturer: string): (r: string)
    ensures !s.enableVideoCodec ==> r == manufacturer
    ensures s.enableVideoCodec && s.samsung ==> r == "Samsung"
    ensures s.enableVideoCodec && !s.samsung ==> r == "Google"
  {
    if !s.enableVideoCodec then manufacturer else if s.samsung then "Samsung" else "Google"
  }

  function GetBrand(s: CodecSettings, brand: string): (r: string)
    ensures !s.enableVideoCodec ==> r == brand
    ensures s.enableVideoCodec && s.samsung ==> r == "samsung"
    ensures s.enableVideoCodec && !s.samsung ==> r == "google"
  {
    if !s.enableVideoCodec then brand else if s.samsung then "samsung" else "google"
  }

  function GetModel(s: CodecSettings, model: string): (r: string)
    ensures !s.enableVideoCodec ==> r == model
    ensures s.enableVideoCodec && s.samsung ==> r == "SM-G955W"
    ensures s.enableVideoCodec && !s.samsung ==> r == "Pixel 7 Pro"
  {
    if !s.enableVideoCodec then model else if s.samsung then "SM-G955W" else "Pixel 7 Pro"
  }

  function ShouldForceOpus(s: CodecSettings): (r: bool)
    ensures r <==> s.enableOpusCodec
  {
    s.enableOpusCodec
  }

  function ShouldForceCodec(s: CodecSettings, original: bool): (r: bool)
    ensures r <==> s.enableVideoCodec || original
  {
    s.enableVideoCodec || original
  }

  /** Upper-case ASCII letters lowered, everything else kept. */
  function Lower(t: string): (r: string)
    ensures |r| == |t|
  {
    seq(|t|, i requires 0 <= i < |t| => if 'A' <= t[i] <= 'Z' then (t[i] as int + 32) as char else t[i])
  }

  /** With the override on, all three answers describe one and the same
      vendor, and the brand is the manufacturer in lower case. */
  lemma OverridesNameOneVendor(s: CodecSettings, manufacturer: string, brand: string, model: string)
    requires s.enableVideoCodec
    ensures var v := Chosen(s);
            GetManufacturer(s, manufacturer) == ManufacturerOf(v) &&
            GetBrand(s, brand) == BrandOf(v) &&
            GetModel(s, model) == ModelOf(v)
    ensures GetBrand(s, brand) == Lower(GetManufacturer(s, manufacturer))
  {
    var m := GetManufacturer(s, manufacturer);
    if s.samsung {
      assert Lower(m) == "samsung";
    } else {
      assert Lower(m) == "google";
    }
  }

  /** The two vendors are told apart by every one of the three answers. */
  lemma VendorsDiffer()
    ensures ManufacturerOf(Samsung) != ManufacturerOf(Google)
    ensures BrandOf(Samsung) != BrandOf(Google)
    ensures ModelOf(Samsung) != ModelOf(Google)
  {
    assert ManufacturerOf(Samsung)[0] != ManufacturerOf(Google)[0];
    assert BrandOf(Samsung)[0] != BrandOf(Google)[0];
    assert ModelOf(Samsung)[0] != ModelOf(Google)[0];
  }

  /** With the override off the device's identity goes through untouched. */
  lemma DisabledIsIdentity(s: CodecSettings, manufacturer: string, brand: string, model: string, original: bool)
    requires !s.enableVideoCodec
    ensures GetManufacturer(s, manufacturer) == manufacturer
    ensures GetBrand(s, brand) == brand
    ensures GetModel(s, model) == model
    ensures ShouldForceCodec(s, original) == original
  {
  }
}
