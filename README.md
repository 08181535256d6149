# H.264 external video encoder factory — Dafny model

This project models `ExternalEncoderFactory`, the video encoder factory that the
Windows peer-connection client hands to WebRTC. The factory does three things:

- **Capability catalog** (`GetSupportedFormats`). It advertises exactly one SDP
  video format: H.264 Constrained Baseline, level 3.1, packetization-mode 1,
  with this fork's `bframe_enabled` flag switched on.
- **Support query** (`QueryCodecSupport`). It fails closed when a scalability
  mode is requested. Otherwise it reports whether the requested format is the
  same codec as a catalog entry.
- **Encoder selection** (`CreateVideoEncoder`). For a codec named "H264" (in any
  ASCII case), it returns the NVIDIA D3D11 hardware encoder when both the
  software H.264 probe and the NVIDIA probe succeed. It returns the software
  H.264 encoder when only the software probe succeeds. In every other case it
  returns a null pointer.

Modules:

- `Optional` (optional.dfy): `Option`, standing for `absl::optional`.
- `AsciiStrings` (ascii_strings.dfy): `absl::EqualsIgnoreCase`, proved equal to
  comparing ASCII-case-folded strings, hence an equivalence relation.
- `SdpVideoFormats` (sdp_video_format.dfy): the `SdpVideoFormat` value and the
  library functions the factory calls, as assumed behaviour.
- `ExternalVideoEncoderFactory` (external_video_encoder_factory.dfy): the factory.

Assumptions about library code that is not part of this model:

- `CreateH264Format(kProfileConstrainedBaseline, kLevel3_1, "1", false)` yields the
  name "H264" with no B-frames. Its parameters are `profile-level-id = 42e01f`,
  `level-asymmetry-allowed = 1` and `packetization-mode = 1`. These are the SDP
  parameters of section 8.1 of RFC 6184. `42e01f` is profile_idc 0x42 with
  profile-iop 0xe0 (Constrained Baseline) and level_idc 31 (level 3.1). In the
  model, `CreateH264Format` takes the already encoded profile-level-id string.
- `SdpVideoFormat::IsCodecInList` holds when some entry is the same codec.
  Two formats are the same codec when their names are equal ignoring ASCII case
  and their parameter maps are equal. The B-frame flag is not part of identity.
- `CodecSupport` default-initialises both `is_supported` and
  `is_power_efficient` to false.
- `H264Encoder::IsSupported` and `NvidiaD3D11Encoder::IsSupported` are boolean
  inputs of `CreateVideoEncoder`.
- `cricket::CreateVideoCodec(format)` is an opaque `VideoCodec` that records the format.

Two consequences of the code's nesting:

- The NVIDIA probe is consulted only after the software H.264 probe succeeds
  (lines 51-53), so selection is not an ungated hardware-then-software walk.
  `SelectionIsPriorityWalk` and `HardwareProbeGatedBySoftwareProbe` state this.
- An unrecognised name and an H264 name with no usable backend return the same
  null pointer (line 64). `AbsenceIsNotDistinguished` states this.

## Model

| member | source | states |
|---|---|---|
| `AsciiStrings.EqualsIgnoreCase` | peerconnection_client/external_video_encoder_factory.cc:49 | assumed `absl::EqualsIgnoreCase`: true iff the names have equal length and agree at every position after ASCII lowering |
| `AsciiStrings.EqualsIgnoreCaseIffFoldedEqual` | peerconnection_client/external_video_encoder_factory.cc:49 | the caseless name comparison holds exactly when the ASCII-case-folded names are equal |
| `AsciiStrings.EqualsIgnoreCaseReflexive` | peerconnection_client/external_video_encoder_factory.cc:49 | every name matches itself ignoring case |
| `AsciiStrings.EqualsIgnoreCaseSymmetric` | peerconnection_client/external_video_encoder_factory.cc:49 | the caseless comparison is symmetric |
| `AsciiStrings.EqualsIgnoreCaseTransitive` | peerconnection_client/external_video_encoder_factory.cc:49 | the caseless comparison is transitive |
| `SdpVideoFormats.CreateH264Format` | peerconnection_client/external_video_encoder_factory.cc:30 | assumed library output: name "H264", B-frames off, exactly the profile-level-id, level-asymmetry-allowed and packetization-mode parameters, with the given profile-level-id and packetization-mode |
| `SdpVideoFormats.IsSameCodec` | peerconnection_client/external_video_encoder_factory.cc:42 | assumed `SdpVideoFormat::IsSameCodec`: two formats match iff their names have equal length and agree at every position after ASCII lowering, and their parameter maps are equal; the B-frame flag takes no part |
| `SdpVideoFormats.IsCodecInList` | peerconnection_client/external_video_encoder_factory.cc:42 | assumed library lookup: true iff some list entry is the same codec as the format |
| `SdpVideoFormats.SameCodecIgnoresBFrameFlag` | peerconnection_client/external_video_encoder_factory.cc:31-42 | changing the B-frame flag never changes codec identity, in either direction |
| `SdpVideoFormats.IsSameCodecSymmetric` | peerconnection_client/external_video_encoder_factory.cc:42 | codec identity is symmetric |
| `SdpVideoFormats.IsSameCodecTransitive` | peerconnection_client/external_video_encoder_factory.cc:42 | codec identity is transitive |
| `SdpVideoFormats.MemberIsCodecInList` | peerconnection_client/external_video_encoder_factory.cc:42 | every entry of a list is found in that list |
| `ExternalVideoEncoderFactory.CreateVideoCodec` | peerconnection_client/external_video_encoder_factory.cc:55-59 | opaque `cricket::CreateVideoCodec`: the codec settings record exactly the format they were built from |
| `ExternalVideoEncoderFactory.SupportedFormats` | peerconnection_client/external_video_encoder_factory.cc:22-34 | the catalog has exactly one entry: name H264, Constrained Baseline level 3.1 parameters with packetization-mode 1, B-frames enabled |
| `ExternalVideoEncoderFactory.GetSupportedFormats` | peerconnection_client/external_video_encoder_factory.cc:20-35 | the list built by enabling B-frames on a fresh H.264 format and appending it is exactly the catalog |
| `ExternalVideoEncoderFactory.GetSupportedFormatsTwice` | peerconnection_client/external_video_encoder_factory.cc:20-35 | repeated calls return equal lists, same order and same values |
| `ExternalVideoEncoderFactory.InCatalogIff` | peerconnection_client/external_video_encoder_factory.cc:30-42 | a format is found in the catalog iff its name is "H264" ignoring case and its parameters are the advertised ones |
| `ExternalVideoEncoderFactory.QueryCodecSupport` | peerconnection_client/external_video_encoder_factory.cc:37-45 | with a scalability mode the result is unsupported whatever the format; without one it is supported iff the format is in the catalog (closed form: H264 in any case with the advertised parameters); never power efficient |
| `ExternalVideoEncoderFactory.AdvertisedFormatsAreSupported` | peerconnection_client/external_video_encoder_factory.cc:20-43 | every advertised format is found in the catalog, so the query reports it supported when no scalability mode is given |
| `ExternalVideoEncoderFactory.CatalogLookupExamples` | peerconnection_client/external_video_encoder_factory.cc:30-42 | "h264" with the advertised parameters is found, whatever its B-frame flag; a High-profile profile-level-id is not |
| `ExternalVideoEncoderFactory.CreateVideoEncoder` | peerconnection_client/external_video_encoder_factory.cc:47-65 | a non-H264 name or a failed software probe gives None; NVIDIA hardware iff H264 name and both probes succeed; software H.264 iff H264 name, software probe succeeds and NVIDIA probe fails; any encoder is built from the requested format |
| `ExternalVideoEncoderFactory.SelectionDependsOnFoldedName` | peerconnection_client/external_video_encoder_factory.cc:47-65 | requests whose names fold to the same string, under the same probe answers, get the same backend |
| `ExternalVideoEncoderFactory.SupportedFormatIsCreatable` | peerconnection_client/external_video_encoder_factory.cc:37-65 | a format the catalog accepts yields an encoder built from it iff the software probe succeeds |
| `ExternalVideoEncoderFactory.FirstUsable` | peerconnection_client/external_video_encoder_factory.cc:53-60 | reference priority walk: None iff no candidate is usable, otherwise the first usable candidate's backend |
| `ExternalVideoEncoderFactory.SelectionIsPriorityWalk` | peerconnection_client/external_video_encoder_factory.cc:49-64 | for an H264 name the chosen backend is the first usable of [NVIDIA with both probes, software with the software probe]: hardware is preferred |
| `ExternalVideoEncoderFactory.HardwareProbeGatedBySoftwareProbe` | peerconnection_client/external_video_encoder_factory.cc:51-64 | an ungated priority walk would pick NVIDIA when only its probe succeeds; the factory returns None |
| `ExternalVideoEncoderFactory.AbsenceIsNotDistinguished` | peerconnection_client/external_video_encoder_factory.cc:49-64 | an unrecognised name and an H264 name with a failed software probe give the same None |

## Left out

- `CreateBuiltinExternalVideoEncoderFactory`: it only allocates the field-less factory object. The model's operations stand at module level, so there is no object to construct.
- Probe call order: the probes are modelled as boolean inputs, so the model does not capture that the NVIDIA probe is not called at all when the software probe fails. Only the result of the nesting is modelled.
- The compiled-out `#if 0` branch that would advertise WebRTC's default H.264 formats. It is dead code.
- The internals of `NvEncoder`, `H264Encoder::Create` and `cricket::CreateVideoCodec`: foreign encoder code, modelled as opaque tags.
- How the two probes work (hardware and driver queries).
- The body of `CreateH264Format` (the hex encoding of profile and level) and of `SdpVideoFormat::IsCodecInList`. Both are library code; their assumed behaviour is stated above.
- Scalability modes carried inside a format: `CreateH264Format` is called with `add_scalability_modes = false`, so the advertised format has none, and the model's format has no such field.
- `SdpVideoFormats.IsCodecInList`: WebRTC's real codec comparison for H.264 looks only at the profile and packetization-mode. This model compares whole parameter maps.
- peerconnection_client/main.cc: Win32 process glue (command line, sockets, SSL, window and message loop) with no logic of its own.
- Byte strings: names are modelled as `seq<char>`; only 'A'..'Z' are folded, as in the ASCII-only comparison.
