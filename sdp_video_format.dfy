/**
 * The parts of WebRTC's SdpVideoFormat that the encoder factory relies on.
 * Their library code is not part of this model; what is written here is the
 * behaviour the factory assumes of them:
 *  - a format is a codec name, its SDP fmtp parameters (section 8.1 of
 *    RFC 6184 for H.264) and this fork's extra `bframe_enabled` flag;
 *  - CreateH264Format yields the name "H264" with profile-level-id,
 *    level-asymmetry-allowed and packetization-mode parameters;
 *  - two formats are the same codec when their names are equal ignoring
 *    ASCII case and their parameters are equal; the B-frame flag plays no part.
 */
module SdpVideoFormats {
  import opened AsciiStrings

  datatype SdpVideoFormat = SdpVideoFormat(
    name: string,
    parameters: map<string, string>,
    bframeEnabled: bool)

  /** cricket::kH264CodecName. */
  const H264CodecName: string := "H264"

  /** SDP fmtp parameter names of section 8.1 of RFC 6184. */
  const ProfileLevelIdKey: string := "profile-level-id"
  const LevelAsymmetryAllowedKey: string := "level-asymmetry-allowed"
  const PacketizationModeKey: string := "packetization-mode"

  /**
   * profile-level-id of Constrained Baseline, level 3.1: profile_idc 0x42,
   * profile-iop 0xe0 (constraint_set0/1/2 flags), level_idc 0x1f = 31.
   */
  const ConstrainedBaselineLevel3_1: string := "42e01f"

  /**
   * Assumed output of CreateH264Format(profile, level, packetization_mode,
   * add_scalability_modes = false), given the profile-level-id string that
   * the profile and level encode to. The format starts with B-frames off.
   */
  function CreateH264Format(profileLevelId: string, packetizationMode: string): (format: SdpVideoFormat)
    ensures format.name == H264CodecName && !format.bframeEnabled
    ensures format.parameters.Keys == {ProfileLevelIdKey, LevelAsymmetryAllowedKey, PacketizationModeKey}
    ensures format.parameters[ProfileLevelIdKey] == profileLevelId
    ensures format.parameters[LevelAsymmetryAllowedKey] == "1"
    ensures format.parameters[PacketizationModeKey] == packetizationMode
  {
    SdpVideoFormat(
      H264CodecName,
      map[ProfileLevelIdKey := profileLevelId,
          LevelAsymmetryAllowedKey := "1",
          PacketizationModeKey := packetizationMode],
      false)
  }

  /** Assumed SdpVideoFormat::IsSameCodec: caseless name match and equal parameters. */
  function IsSameCodec(format: SdpVideoFormat, other: SdpVideoFormat): (same: bool)
    ensures same <==>
      && |format.name| == |other.name|
      && (forall i :: 0 <= i < |format.name| ==> AsciiToLower(format.name[i]) == AsciiToLower(other.name[i]))
      && format.parameters == other.parameters
  {
    EqualsIgnoreCase(format.name, other.name) && format.parameters == other.parameters
  }

  /** Assumed SdpVideoFormat::IsCodecInList: some entry of the list is the same codec. */
  function IsCodecInList(format: SdpVideoFormat, formats: seq<SdpVideoFormat>): (found: bool)
    ensures found <==> exists i :: 0 <= i < |formats| && IsSameCodec(format, formats[i])
  {
    if formats == [] then false
    else if IsSameCodec(format, formats[0]) then true
    else
      var rest := IsCodecInList(format, formats[1..]);
      assert forall i :: 1 <= i < |formats| ==> formats[i] == formats[1..][i - 1];
      rest
  }

  /** The B-frame flag is advisory: it never affects codec identity. */
  lemma {:induction false} SameCodecIgnoresBFrameFlag(format: SdpVideoFormat, bframeEnabled: bool)
    ensures IsSameCodec(format, format.(bframeEnabled := bframeEnabled))
    ensures IsSameCodec(format.(bframeEnabled := bframeEnabled), format)
  {
    EqualsIgnoreCaseReflexive(format.name);
  }

  // General facts about the assumed identity predicate: it is an equivalence
  // relation, so a lookup does not depend on which side of the comparison the
  // catalog entry stands.

  lemma {:induction false} IsSameCodecSymmetric(a: SdpVideoFormat, b: SdpVideoFormat)
    ensures IsSameCodec(a, b) ==> IsSameCodec(b, a)
  {
    EqualsIgnoreCaseSymmetric(a.name, b.name);
  }

  lemma {:induction false} IsSameCodecTransitive(a: SdpVideoFormat, b: SdpVideoFormat, c: SdpVideoFormat)
    ensures IsSameCodec(a, b) && IsSameCodec(b, c) ==> IsSameCodec(a, c)
  {
    EqualsIgnoreCaseTransitive(a.name, b.name, c.name);
  }

  /** Every entry of a list is found in that list. */
  lemma {:induction false} MemberIsCodecInList(format: SdpVideoFormat, formats: seq<SdpVideoFormat>)
    requires format in formats
    ensures IsCodecInList(format, formats)
  {
    var i :| 0 <= i < |formats| && formats[i] == format;
    EqualsIgnoreCaseReflexive(format.name);
    assert IsSameCodec(format, formats[i]);
  }

}
