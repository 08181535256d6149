/**
 * ExternalEncoderFactory: the video encoder factory of the peer-connection
 * client. It advertises one H.264 format, answers support queries against
 * that list, and creates an encoder by probing for NVIDIA hardware encoding
 * and the software H.264 encoder.
 *
 * The C++ class has no fields, so its operations are modelled as functions
 * and methods of this module. The two availability probes,
 * H264Encoder::IsSupported and NvidiaD3D11Encoder::IsSupported, are boolean
 * parameters.
 */
module ExternalVideoEncoderFactory {
  import opened AsciiStrings
  import opened SdpVideoFormats
  import Optional

  /** webrtc::VideoEncoderFactory::CodecSupport; both fields default to false. */
  datatype CodecSupport = CodecSupport(isSupported: bool, isPowerEfficient: bool)

  const DefaultCodecSupport: CodecSupport := CodecSupport(false, false)

  /** The codec settings cricket::CreateVideoCodec builds from a format; its contents are opaque here. */
  datatype VideoCodec = VideoCodec(format: SdpVideoFormat)

  function CreateVideoCodec(format: SdpVideoFormat): (codec: VideoCodec)
    ensures codec.format == format
  {
    VideoCodec(format)
  }

  /**
   * What CreateVideoEncoder returns: the NVIDIA D3D11 encoder, the software
   * H.264 encoder, each built from the requested format's codec settings, or
   * a null pointer.
   */
  datatype VideoEncoder =
    | NvHardware(codec: VideoCodec)
    | SoftwareH264(codec: VideoCodec)
    | None

  /** The parameters of the one advertised format. */
  const AdvertisedParameters: map<string, string> :=
    map[ProfileLevelIdKey := ConstrainedBaselineLevel3_1,
        LevelAsymmetryAllowedKey := "1",
        PacketizationModeKey := "1"]

  // ---------------------------------------------------------------------------
  // Capability catalog
  // ---------------------------------------------------------------------------

  /**
   * The catalog as a value: exactly one format, H.264 Constrained Baseline
   * level 3.1 with packetization-mode 1, with B-frames enabled.
   */
  function SupportedFormats(): (formats: seq<SdpVideoFormat>)
    ensures |formats| == 1
    ensures formats[0].name == H264CodecName
    ensures formats[0].parameters == AdvertisedParameters
    ensures formats[0].bframeEnabled
  {
    [CreateH264Format(ConstrainedBaselineLevel3_1, "1").(bframeEnabled := true)]
  }

  /** GetSupportedFormats: build the list by turning on B-frames in a fresh H.264 format and appending it. */
  method GetSupportedFormats() returns (videoFormats: seq<SdpVideoFormat>)
    ensures videoFormats == SupportedFormats()
  {
    videoFormats := [];
    var bframesSdpFormat := CreateH264Format(ConstrainedBaselineLevel3_1, "1");
    bframesSdpFormat := bframesSdpFormat.(bframeEnabled := true);
    videoFormats := videoFormats + [bframesSdpFormat];
  }

  /** Two calls of GetSupportedFormats return the same list, in the same order. */
  method GetSupportedFormatsTwice() returns (first: seq<SdpVideoFormat>, second: seq<SdpVideoFormat>)
    ensures first == second
  {
    first := GetSupportedFormats();
    second := GetSupportedFormats();
  }

  // ---------------------------------------------------------------------------
  // Support query
  // ---------------------------------------------------------------------------

  /** A format is in the catalog exactly when it is "H264" in any case with the advertised parameters. */
  lemma {:induction false} InCatalogIff(format: SdpVideoFormat)
    ensures IsCodecInList(format, SupportedFormats())
        <==> EqualsIgnoreCase(format.name, H264CodecName) && format.parameters == AdvertisedParameters
  {
  }

  /**
   * QueryCodecSupport: start from the default (unsupported, not power
   * efficient); only when no scalability mode is requested, look the format
   * up in the catalog.
   */
  method QueryCodecSupport(format: SdpVideoFormat, scalabilityMode: Optional.Option<string>)
    returns (codecSupport: CodecSupport)
    ensures scalabilityMode.Some? ==> !codecSupport.isSupported
    ensures scalabilityMode.None? ==> codecSupport.isSupported == IsCodecInList(format, SupportedFormats())
    ensures codecSupport.isSupported
        <==> scalabilityMode.None? && EqualsIgnoreCase(format.name, H264CodecName)
             && format.parameters == AdvertisedParameters
    ensures !codecSupport.isPowerEfficient
  {
    codecSupport := DefaultCodecSupport;
    if scalabilityMode.None? {
      var formats := GetSupportedFormats();
      codecSupport := codecSupport.(isSupported := IsCodecInList(format, formats));
    }
    InCatalogIff(format);
  }

  /** Every advertised format is found in the catalog, so it is reported supported without a scalability mode. */
  lemma {:induction false} AdvertisedFormatsAreSupported()
    ensures forall i :: 0 <= i < |SupportedFormats()| ==> IsCodecInList(SupportedFormats()[i], SupportedFormats())
  {
    var catalog := SupportedFormats();
    forall i | 0 <= i < |catalog| ensures IsCodecInList(catalog[i], catalog) {
      MemberIsCodecInList(catalog[i], catalog);
    }
  }

  /**
   * A request that differs from the advertised format only in name case or
   * in the B-frame flag is still found in the catalog; one with a different
   * profile (High, level 3.1) is not.
   */
  lemma {:induction false} CatalogLookupExamples(bframeEnabled: bool)
    ensures IsCodecInList(SdpVideoFormat("h264", AdvertisedParameters, bframeEnabled), SupportedFormats())
    ensures !IsCodecInList(
              SdpVideoFormat("h264", AdvertisedParameters[ProfileLevelIdKey := "64001f"], bframeEnabled),
              SupportedFormats())
  {
  }

  // ---------------------------------------------------------------------------
  // Encoder selection
  // ---------------------------------------------------------------------------

  /**
   * CreateVideoEncoder, given the answers of the software H.264 probe and of
   * the NVIDIA probe. The NVIDIA probe is consulted only when the software
   * probe succeeds; an unrecognised name and a missing backend both give None.
   */
  function CreateVideoEncoder(format: SdpVideoFormat, h264Supported: bool, nvidiaSupported: bool)
    : (encoder: VideoEncoder)
    ensures !EqualsIgnoreCase(format.name, H264CodecName) ==> encoder.None?
    ensures !h264Supported ==> encoder.None?
    ensures encoder.NvHardware?
        <==> EqualsIgnoreCase(format.name, H264CodecName) && h264Supported && nvidiaSupported
    ensures encoder.SoftwareH264?
        <==> EqualsIgnoreCase(format.name, H264CodecName) && h264Supported && !nvidiaSupported
    ensures !encoder.None? ==> encoder.codec == CreateVideoCodec(format)
  {
    if EqualsIgnoreCase(format.name, H264CodecName) then
      if h264Supported then
        if nvidiaSupported then NvHardware(CreateVideoCodec(format))
        else SoftwareH264(CreateVideoCodec(format))
      else None
    else None
  }

  /** The two concrete backends an encoder can come from. */
  datatype Backend = NvidiaHardware | SoftwareEncoder

  function BackendOf(encoder: VideoEncoder): Optional.Option<Backend> {
    match encoder
    case NvHardware(_) => Optional.Some(NvidiaHardware)
    case SoftwareH264(_) => Optional.Some(SoftwareEncoder)
    case None => Optional.None
  }

  /**
   * Requests whose names are equal ignoring ASCII case, probed under the
   * same answers, get the same backend: the choice depends only on the
   * case-folded name and the two probes.
   */
  lemma {:induction false} SelectionDependsOnFoldedName(
    a: SdpVideoFormat, b: SdpVideoFormat, h264Supported: bool, nvidiaSupported: bool)
    requires FoldCase(a.name) == FoldCase(b.name)
    ensures BackendOf(CreateVideoEncoder(a, h264Supported, nvidiaSupported))
         == BackendOf(CreateVideoEncoder(b, h264Supported, nvidiaSupported))
  {
    EqualsIgnoreCaseIffFoldedEqual(a.name, H264CodecName);
    EqualsIgnoreCaseIffFoldedEqual(b.name, H264CodecName);
  }

  /**
   * A format the support query accepts can be created whenever the software
   * H.264 probe succeeds, and its encoder is built from that format; when the
   * software probe fails, no encoder is created.
   */
  lemma {:induction false} SupportedFormatIsCreatable(
    format: SdpVideoFormat, h264Supported: bool, nvidiaSupported: bool)
    requires IsCodecInList(format, SupportedFormats())
    ensures var encoder := CreateVideoEncoder(format, h264Supported, nvidiaSupported);
      (encoder.None? <==> !h264Supported) && (!encoder.None? ==> encoder.codec.format == format)
  {
  }

  /** A probe-gated candidate in a priority-ordered backend list. */
  datatype Candidate = Candidate(backend: Backend, usable: bool)

  /** Reference selection: the first usable candidate in priority order, if any. */
  function FirstUsable(candidates: seq<Candidate>): (chosen: Optional.Option<Backend>)
    ensures chosen.None? <==> forall i :: 0 <= i < |candidates| ==> !candidates[i].usable
    ensures chosen.Some? ==>
      exists i :: 0 <= i < |candidates| && candidates[i].usable && candidates[i].backend == chosen.value
        && forall j :: 0 <= j < i ==> !candidates[j].usable
  {
    if candidates == [] then Optional.None
    else if candidates[0].usable then Optional.Some(candidates[0].backend)
    else
      var rest := FirstUsable(candidates[1..]);
      assert forall i :: 1 <= i < |candidates| ==> candidates[i] == candidates[1..][i - 1];
      rest
  }

  /**
   * For an H.264 request the factory is the priority walk "NVIDIA hardware,
   * then software", where the hardware candidate counts as usable only when
   * both probes succeed.
   */
  lemma {:induction false} SelectionIsPriorityWalk(
    format: SdpVideoFormat, h264Supported: bool, nvidiaSupported: bool)
    requires EqualsIgnoreCase(format.name, H264CodecName)
    ensures BackendOf(CreateVideoEncoder(format, h264Supported, nvidiaSupported))
         == FirstUsable([Candidate(NvidiaHardware, h264Supported && nvidiaSupported),
                         Candidate(SoftwareEncoder, h264Supported)])
  {
  }

  /**
   * With the NVIDIA probe taken on its own, the priority walk would pick the
   * hardware even without software H.264 support; the factory returns None.
   */
  lemma {:induction false} HardwareProbeGatedBySoftwareProbe(format: SdpVideoFormat)
    requires EqualsIgnoreCase(format.name, H264CodecName)
    ensures FirstUsable([Candidate(NvidiaHardware, true), Candidate(SoftwareEncoder, false)])
         == Optional.Some(NvidiaHardware)
    ensures CreateVideoEncoder(format, false, true) == None
  {
  }

  /**
   * "Unrecognised codec" and "no usable backend" are one and the same None:
   * a caller cannot tell them apart from the result.
   */
  lemma {:induction false} AbsenceIsNotDistinguished(
    unknown: SdpVideoFormat, h264: SdpVideoFormat, nvidiaSupported: bool)
    requires !EqualsIgnoreCase(unknown.name, H264CodecName)
    requires EqualsIgnoreCase(h264.name, H264CodecName)
    ensures CreateVideoEncoder(unknown, true, true) == CreateVideoEncoder(h264, false, nvidiaSupported)
  {
  }

}
