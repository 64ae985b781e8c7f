/** The firmware image format and the decision to accept an image. The signature check and the
    digest are parameters. */
module Firmware {
  import opened Options

  type Byte = x: int | 0 <= x < 256

  type Bytes = seq<Byte>

  const MAGIC: Bytes := [0x41, 0x56, 0x43, 0x53, 0x46, 0x57, 0x31]
  const HEADER_SIZE := 20
  const SIGNATURE_SIZE := 96
  const WORD := 0x1_0000_0000

  datatype Header = Header(
    targetEcu: int, major: int, minor: int, patch: int, flags: int, payloadSize: int, sigOffset: int)

  // ---------------------------------------------------------------- big-endian words

  function EncodeWord(n: int): (b: Bytes)
    requires 0 <= n < WORD
    ensures |b| == 4
  {
    [n / 0x100 / 0x100 / 0x100, n / 0x100 / 0x100 % 0x100, n / 0x100 % 0x100, n % 0x100]
  }

  function Shift(high: int, low: int): int {
    high * 0x100 + low
  }

  function DecodeWord(b: Bytes): (n: int)
    requires |b| == 4
    ensures 0 <= n < WORD
    ensures var w: seq<int> := b; n == w[0] * 0x100_0000 + w[1] * 0x1_0000 + w[2] * 0x100 + w[3]
  {
    Shift(Shift(Shift(b[0], b[1]), b[2]), b[3])
  }

  lemma ShiftApart(high: int, low: int)
    requires 0 <= low < 0x100
    ensures Shift(high, low) / 0x100 == high && Shift(high, low) % 0x100 == low
  {
  }

  lemma ShiftTogether(n: int)
    ensures Shift(n / 0x100, n % 0x100) == n
  {
  }

  lemma WordRoundTrip(n: int)
    requires 0 <= n < WORD
    ensures DecodeWord(EncodeWord(n)) == n
  {
    ShiftTogether(n);
    ShiftTogether(n / 0x100);
    ShiftTogether(n / 0x100 / 0x100);
  }

  lemma BytesRoundTrip(b: Bytes)
    requires |b| == 4
    ensures EncodeWord(DecodeWord(b)) == b
  {
    ShiftApart(b[0], b[1]);
    ShiftApart(Shift(b[0], b[1]), b[2]);
    ShiftApart(Shift(Shift(b[0], b[1]), b[2]), b[3]);
    hide Shift;
  }

  // ---------------------------------------------------------------- the header

  predicate IsByte(n: int) {
    0 <= n < 0x100
  }

  /** What the header can hold; packing anything else raises struct.error. */
  predicate InRange(h: Header) {
    && IsByte(h.targetEcu) && IsByte(h.major) && IsByte(h.minor) && IsByte(h.patch) && IsByte(h.flags)
    && 0 <= h.payloadSize < WORD && 0 <= h.sigOffset < WORD
  }

  function PackHeader(h: Header): (r: Option<Bytes>)
    ensures r.Some? ==> |r.value| == HEADER_SIZE
  {
    if InRange(h) then
      Some(MAGIC + [h.targetEcu, h.major, h.minor, h.patch, h.flags] + EncodeWord(h.payloadSize) + EncodeWord(h.sigOffset))
    else None
  }

  datatype ParseError = TooSmall | BadMagic

  datatype Parsed = Parsed(header: Header) | Refused(error: ParseError)

  function ParseHeader(image: Bytes): Parsed {
    if |image| < HEADER_SIZE then Refused(TooSmall)
    else if image[..7] != MAGIC then Refused(BadMagic)
    else
      Parsed(Header(image[7], image[8], image[9], image[10], image[11],
                    DecodeWord(image[12..16]), DecodeWord(image[16..20])))
  }

  /** Where the fields are: seven bytes of magic, five of one byte each, and two big-endian words.
      Only a short image or another magic is refused. */
  lemma HeaderLayout(image: Bytes)
    ensures ParseHeader(image).Parsed? <==> |image| >= 20 && image[..7] == [0x41, 0x56, 0x43, 0x53, 0x46, 0x57, 0x31]
    ensures ParseHeader(image).Parsed? ==>
              var h, b: seq<int> := ParseHeader(image).header, image;
              && h.targetEcu == b[7] && h.major == b[8] && h.minor == b[9] && h.patch == b[10] && h.flags == b[11]
              && h.payloadSize == ((b[12] * 256 + b[13]) * 256 + b[14]) * 256 + b[15]
              && h.sigOffset == ((b[16] * 256 + b[17]) * 256 + b[18]) * 256 + b[19]
  {
  }

  /** Parsing undoes packing, whatever follows the header. */
  lemma ParseUndoesPack(h: Header, rest: Bytes)
    requires PackHeader(h).Some?
    ensures ParseHeader(PackHeader(h).value + rest) == Parsed(h)
  {
  }

  /** Packing undoes parsing: the header bytes hold nothing but the fields. */
  lemma PackUndoesParse(image: Bytes)
    requires ParseHeader(image).Parsed?
    ensures PackHeader(ParseHeader(image).header) == Some(image[..HEADER_SIZE])
  {
    BytesRoundTrip(image[12..16]);
    BytesRoundTrip(image[16..20]);
    hide EncodeWord, DecodeWord;
    assert image[7..12] == [image[7], image[8], image[9], image[10], image[11]];
    assert image[..20] == image[..7] + image[7..12] + image[12..16] + image[16..20];
  }

  // ---------------------------------------------------------------- images

  datatype Version = Version(major: int, minor: int, patch: int)

  /** The header that the builder writes; without a signature its offset is zero. */
  function HeaderFor(ecu: int, v: Version, payload: Bytes, flags: int, signature: Bytes): Header {
    Header(ecu, v.major, v.minor, v.patch, flags, |payload|, if |signature| > 0 then HEADER_SIZE + |payload| else 0)
  }

  function BuildImage(ecu: int, v: Version, payload: Bytes, flags: int, signature: Bytes): Option<Bytes> {
    var packed := PackHeader(HeaderFor(ecu, v, payload, flags, signature));
    if packed.None? then None else Some(packed.value + payload + signature)
  }

  predicate Signed(h: Header) {
    h.flags % 2 == 1
  }

  predicate PayloadFits(image: Bytes, h: Header) {
    HEADER_SIZE + h.payloadSize <= |image|
  }

  function PayloadOf(image: Bytes, h: Header): Bytes
    requires 0 <= h.payloadSize && PayloadFits(image, h)
  {
    image[HEADER_SIZE..HEADER_SIZE + h.payloadSize]
  }

  predicate SignatureFits(image: Bytes, h: Header) {
    h.sigOffset != 0 && h.sigOffset + SIGNATURE_SIZE <= |image|
  }

  function SignatureOf(image: Bytes, h: Header): Bytes
    requires 0 <= h.sigOffset && SignatureFits(image, h)
  {
    image[h.sigOffset..h.sigOffset + SIGNATURE_SIZE]
  }

  /** A built image comes apart into the very fields, payload and signature it was built from;
      a signature is found exactly when at least 96 bytes of one were appended. */
  lemma BuildThenTakeApart(ecu: int, v: Version, payload: Bytes, flags: int, signature: Bytes)
    requires BuildImage(ecu, v, payload, flags, signature).Some?
    ensures var image, h := BuildImage(ecu, v, payload, flags, signature).value, HeaderFor(ecu, v, payload, flags, signature);
            && ParseHeader(image) == Parsed(h)
            && PayloadFits(image, h) && PayloadOf(image, h) == payload
            && (SignatureFits(image, h) <==> |signature| >= SIGNATURE_SIZE)
            && (SignatureFits(image, h) ==> SignatureOf(image, h) == signature[..SIGNATURE_SIZE])
  {
  }

  /** An image can be built exactly when the fields fit and the payload leaves room for the
      offset of a signature. */
  lemma BuildsExactly(ecu: int, v: Version, payload: Bytes, flags: int, signature: Bytes)
    ensures BuildImage(ecu, v, payload, flags, signature).Some? <==>
              && IsByte(ecu) && IsByte(v.major) && IsByte(v.minor) && IsByte(v.patch) && IsByte(flags)
              && |payload| + (if signature == [] then 0 else HEADER_SIZE) < WORD
  {
  }

  // ---------------------------------------------------------------- acceptance

  /** a >= b, compared major first. */
  predicate AtLeast(a: Version, b: Version) {
    a.major > b.major
    || (a.major == b.major && (a.minor > b.minor || (a.minor == b.minor && a.patch >= b.patch)))
  }

  lemma AtLeastIsTotalOrder(a: Version, b: Version, c: Version)
    ensures AtLeast(a, a) && (AtLeast(a, b) || AtLeast(b, a))
    ensures AtLeast(a, b) && AtLeast(b, c) ==> AtLeast(a, c)
    ensures AtLeast(a, b) && AtLeast(b, a) ==> a == b
  {
  }

  function VersionOf(h: Header): Version {
    Version(h.major, h.minor, h.patch)
  }

  /** verify takes a signature and the data; no verifier stands for no trusted key. */
  datatype Oracles = Oracles(verify: Option<(Bytes, Bytes) -> bool>, digest: Bytes -> nat)

  /** The validator's memory: bad digests and the version installed on each ECU. */
  datatype Memory = Memory(knownBad: set<nat>, installed: map<int, Version>)

  predicate VersionOk(m: Memory, h: Header) {
    h.targetEcu in m.installed ==> AtLeast(VersionOf(h), m.installed[h.targetEcu])
  }

  predicate SignatureOk(o: Oracles, image: Bytes, h: Header, required: bool)
    requires 0 <= h.payloadSize && 0 <= h.sigOffset && PayloadFits(image, h)
  {
    if Signed(h) && SignatureFits(image, h) then
      o.verify.Some? ==> o.verify.value(SignatureOf(image, h), PayloadOf(image, h))
    else !required
  }

  predicate HashOk(o: Oracles, m: Memory, image: Bytes, h: Header)
    requires 0 <= h.payloadSize && PayloadFits(image, h)
  {
    o.digest(PayloadOf(image, h)) !in m.knownBad
  }

  /** The four checks of the pipeline. */
  predicate Acceptable(o: Oracles, m: Memory, image: Bytes, required: bool) {
    var p := ParseHeader(image);
    && p.Parsed? && PayloadFits(image, p.header) && SignatureOk(o, image, p.header, required)
    && VersionOk(m, p.header) && HashOk(o, m, image, p.header)
  }

  datatype Code = Ok | HeaderInvalid | SignatureInvalid | VersionIncompatible | KnownBadHash | PayloadTruncated

  datatype Complaint = ParseFailed | Truncated | OffsetOutOfRange | BadSignature | NotSigned | Downgrade | KnownBad

  datatype Result = Result(code: Code, header: Option<Header>, signatureValid: bool, versionOk: bool, hashScanOk: bool,
                           errors: seq<Complaint>)

  class FirmwareValidator {
    const oracles: Oracles
    var knownBad: set<nat>
    var installed: map<int, Version>

    function Abs(): Memory
      reads this
    {
      Memory(knownBad, installed)
    }

    constructor (oracles: Oracles, memory: Memory)
      ensures this.oracles == oracles && Abs() == memory
    {
      this.oracles, knownBad, installed := oracles, memory.knownBad, memory.installed;
    }

    method CheckVersion(ecu: int, v: Version) returns (ok: bool)
      ensures ok <==> ecu in installed ==> AtLeast(v, installed[ecu])
    {
      if ecu !in installed { return true; }
      ok := AtLeast(v, installed[ecu]);
    }

    /** The signature stage: its verdict, and what it complains about. */
    method CheckSignature(image: Bytes, h: Header, payload: Bytes, required: bool)
      returns (valid: bool, complaint: Option<Complaint>)
      requires 0 <= h.payloadSize && 0 <= h.sigOffset && PayloadFits(image, h) && payload == PayloadOf(image, h)
      ensures valid <==> SignatureOk(oracles, image, h, required)
      ensures complaint ==
        if Signed(h) && SignatureFits(image, h) then (if valid then None else Some(BadSignature))
        else if !required then None
        else if Signed(h) then Some(OffsetOutOfRange)
        else Some(NotSigned)
    {
      valid, complaint := false, None;
      if h.flags % 2 == 1 {
        if h.sigOffset == 0 || h.sigOffset + SIGNATURE_SIZE > |image| {
          if required { complaint := Some(OffsetOutOfRange); } else { valid := true; }
        } else {
          var signature := image[h.sigOffset..h.sigOffset + SIGNATURE_SIZE];
          if oracles.verify.Some? {
            valid := oracles.verify.value(signature, payload);
            if !valid { complaint := Some(BadSignature); }
          } else {
            valid := true;
          }
        }
      } else if required {
        complaint := Some(NotSigned);
      } else {
        valid := true;
      }
    }

    method ValidateImage(image: Bytes, required: bool) returns (r: Result)
      ensures r.code == Ok <==> Acceptable(oracles, Abs(), image, required)
      ensures r.code == Ok <==> r.errors == []
      ensures var p := ParseHeader(image);
              p.Parsed? && PayloadFits(image, p.header) ==>
                var carries := Signed(p.header) && SignatureFits(image, p.header);
                && (NotSigned in r.errors <==> required && !Signed(p.header))
                && (OffsetOutOfRange in r.errors <==> required && Signed(p.header) && !carries)
                && (BadSignature in r.errors <==>
                      carries && oracles.verify.Some?
                      && !oracles.verify.value(SignatureOf(image, p.header), PayloadOf(image, p.header)))
                && (Downgrade in r.errors <==> !r.versionOk) && (KnownBad in r.errors <==> !r.hashScanOk)
                && (r.signatureValid <==>
                      NotSigned !in r.errors && OffsetOutOfRange !in r.errors && BadSignature !in r.errors)
      ensures ParseHeader(image).Refused? ==> r.code == HeaderInvalid && r.header == None && !r.signatureValid
      ensures ParseHeader(image).Parsed? ==> r.header == Some(ParseHeader(image).header)
      ensures var p := ParseHeader(image);
              p.Parsed? && !PayloadFits(image, p.header) ==> r.code == PayloadTruncated && !r.signatureValid
      ensures var p := ParseHeader(image);
              p.Parsed? && PayloadFits(image, p.header) ==>
                && (r.signatureValid <==> SignatureOk(oracles, image, p.header, required))
                && (r.versionOk <==> VersionOk(Abs(), p.header))
                && (r.hashScanOk <==> HashOk(oracles, Abs(), image, p.header))
                && (r.code == SignatureInvalid <==> !r.signatureValid && Signed(p.header))
                && (r.code == VersionIncompatible <==> !r.versionOk && (r.signatureValid || !Signed(p.header)))
                && (r.code == KnownBadHash <==> !r.hashScanOk && r.versionOk && (r.signatureValid || !Signed(p.header)))
                && (r.code == HeaderInvalid <==> !r.signatureValid && !Signed(p.header) && r.versionOk && r.hashScanOk)
    {
      var errors := [];
      var p := ParseHeader(image);
      if p.Refused? { return Result(HeaderInvalid, None, false, false, false, [ParseFailed]); }
      var h := p.header;
      var payloadEnd := HEADER_SIZE + h.payloadSize;
      if payloadEnd > |image| { return Result(PayloadTruncated, Some(h), false, false, false, [Truncated]); }
      var payload := image[HEADER_SIZE..payloadEnd];
      var payloadHash := oracles.digest(payload);

      var signatureValid, complaint := CheckSignature(image, h, payload, required);
      if complaint.Some? { errors := errors + [complaint.value]; }

      var versionOk := CheckVersion(h.targetEcu, Version(h.major, h.minor, h.patch));
      if !versionOk { errors := errors + [Downgrade]; }
      var hashScanOk := payloadHash !in knownBad;
      if !hashScanOk { errors := errors + [KnownBad]; }

      var code := Ok;
      if |errors| > 0 {
        code := if !signatureValid && h.flags % 2 == 1 then SignatureInvalid
                else if !versionOk then VersionIncompatible
                else if !hashScanOk then KnownBadHash
                else HeaderInvalid;
      }
      r := Result(code, Some(h), signatureValid, versionOk, hashScanOk, errors);
    }

    /** Answers for the signature alone, and so accepts what carries none. */
    method VerifySignature(image: Bytes) returns (ok: bool)
      ensures var p := ParseHeader(image);
              ok <==>
                && p.Parsed? && PayloadFits(image, p.header)
                && (Signed(p.header) && SignatureFits(image, p.header) && oracles.verify.Some? ==>
                      oracles.verify.value(SignatureOf(image, p.header), PayloadOf(image, p.header)))
    {
      var r := ValidateImage(image, false);
      ok := r.signatureValid;
    }

    method AddKnownBadHash(hash: nat)
      modifies this`knownBad
      ensures knownBad == old(knownBad) + {hash}
    {
      knownBad := knownBad + {hash};
    }

    method SetCurrentVersion(ecu: int, v: Version)
      modifies this`installed
      ensures installed == old(installed)[ecu := v]
    {
      installed := installed[ecu := v];
    }

    /** Validate, and record the version when the image was accepted. */
    method Install(image: Bytes, required: bool) returns (accepted: bool)
      modifies this`installed
      ensures Abs() == Next(oracles, old(Abs()), Step.Install(image, required))
      ensures accepted <==> Acceptable(oracles, old(Abs()), image, required)
    {
      var r := ValidateImage(image, required);
      accepted := r.code == Ok;
      if accepted {
        var h := r.header.value;
        SetCurrentVersion(h.targetEcu, Version(h.major, h.minor, h.patch));
      }
    }
  }

  // ---------------------------------------------------------------- results

  /** A signed image with its 96-byte signature is accepted exactly on what it was built from. */
  lemma BuiltIsAccepted(o: Oracles, m: Memory, ecu: int, v: Version, payload: Bytes, flags: int, signature: Bytes, required: bool)
    requires BuildImage(ecu, v, payload, flags, signature).Some? && flags % 2 == 1 && |signature| == SIGNATURE_SIZE
    ensures Acceptable(o, m, BuildImage(ecu, v, payload, flags, signature).value, required) <==>
              && (o.verify.Some? ==> o.verify.value(signature, payload))
              && (ecu in m.installed ==> AtLeast(v, m.installed[ecu]))
              && o.digest(payload) !in m.knownBad
  {
    BuildThenTakeApart(ecu, v, payload, flags, signature);
    assert signature[..SIGNATURE_SIZE] == signature;
    hide BuildImage, ParseHeader, PayloadOf, SignatureOf, AtLeast;
  }

  /** Where a signature is required, only a signed image with its signature in range is accepted,
      and one that the trusted key does not verify is not. */
  lemma RequiredMeansSigned(o: Oracles, m: Memory, image: Bytes)
    requires Acceptable(o, m, image, true)
    ensures var h := ParseHeader(image).header;
            && Signed(h) && SignatureFits(image, h)
            && (o.verify.Some? ==> o.verify.value(SignatureOf(image, h), PayloadOf(image, h)))
  {
  }

  /** An image that carries no signature, unsigned or with its offset out of range, is accepted
      exactly when none is required, its payload fits, its version is no downgrade and its digest
      is not banned. */
  lemma UnsignedIsAcceptedExactly(o: Oracles, m: Memory, image: Bytes, required: bool)
    requires ParseHeader(image).Parsed?
    requires var h := ParseHeader(image).header; !Signed(h) || !SignatureFits(image, h)
    ensures var h := ParseHeader(image).header;
            Acceptable(o, m, image, required) <==>
              && !required && PayloadFits(image, h)
              && (h.targetEcu in m.installed ==> AtLeast(Version(h.major, h.minor, h.patch), m.installed[h.targetEcu]))
              && o.digest(PayloadOf(image, h)) !in m.knownBad
  {
  }

  /** The signature covers the payload alone. Of two signed images with the same payload and
      signature, where one is accepted the other is accepted exactly if its version is no
      downgrade for the ECU it names, whatever else differs in the headers. */
  lemma SignatureCoversPayloadOnly(o: Oracles, m: Memory, a: Bytes, b: Bytes, required: bool)
    requires Acceptable(o, m, a, required) && ParseHeader(b).Parsed?
    requires var h := ParseHeader(a).header; Signed(h) && SignatureFits(a, h)
    requires var h := ParseHeader(b).header; Signed(h) && PayloadFits(b, h) && SignatureFits(b, h)
    requires PayloadOf(b, ParseHeader(b).header) == PayloadOf(a, ParseHeader(a).header)
    requires SignatureOf(b, ParseHeader(b).header) == SignatureOf(a, ParseHeader(a).header)
    ensures Acceptable(o, m, b, required) <==> VersionOk(m, ParseHeader(b).header)
  {
    hide ParseHeader, PayloadOf, SignatureOf, AtLeast;
  }

  /** So the same payload and signature under another ECU or version make an image that is
      accepted exactly if that version is no downgrade for that ECU. */
  lemma RelabelledImage(o: Oracles, m: Memory, ecu: int, v: Version, ecu': int, v': Version,
                        payload: Bytes, flags: int, signature: Bytes, required: bool)
    requires BuildImage(ecu, v, payload, flags, signature).Some? && BuildImage(ecu', v', payload, flags, signature).Some?
    requires flags % 2 == 1 && |signature| == SIGNATURE_SIZE
    requires Acceptable(o, m, BuildImage(ecu, v, payload, flags, signature).value, required)
    ensures Acceptable(o, m, BuildImage(ecu', v', payload, flags, signature).value, required)
            <==> ecu' in m.installed ==> AtLeast(v', m.installed[ecu'])
  {
    BuiltIsAccepted(o, m, ecu, v, payload, flags, signature, required);
    BuiltIsAccepted(o, m, ecu', v', payload, flags, signature, required);
    hide Acceptable, BuildImage, AtLeast;
  }

  /** Two such images: the installed version, and the same payload under a later one. */
  lemma RelabelledIsAccepted(o: Oracles, m: Memory)
    requires m.installed == map[1 := Version(1, 0, 0)] && o.digest([7]) !in m.knownBad
    requires o.verify.Some? ==> o.verify.value(seq(SIGNATURE_SIZE, _ => 0), [7])
    ensures var a := BuildImage(1, Version(1, 0, 0), [7], 1, seq(SIGNATURE_SIZE, _ => 0));
            var b := BuildImage(1, Version(3, 0, 0), [7], 1, seq(SIGNATURE_SIZE, _ => 0));
            a.Some? && b.Some? && Acceptable(o, m, a.value, true) && Acceptable(o, m, b.value, true)
  {
    var signature: Bytes := seq(SIGNATURE_SIZE, _ => 0);
    BuildsExactly(1, Version(1, 0, 0), [7], 1, signature);
    BuildsExactly(1, Version(3, 0, 0), [7], 1, signature);
    BuiltIsAccepted(o, m, 1, Version(1, 0, 0), [7], 1, signature, true);
    RelabelledImage(o, m, 1, Version(1, 0, 0), 1, Version(3, 0, 0), [7], 1, signature, true);
    hide BuildImage, Acceptable;
  }

  datatype Step = Install(image: Bytes, required: bool) | Ban(hash: nat)

  function Next(o: Oracles, m: Memory, step: Step): Memory {
    match step
    case Install(image, required) =>
      if Acceptable(o, m, image, required) then
        var h := ParseHeader(image).header;
        m.(installed := m.installed[h.targetEcu := VersionOf(h)])
      else m
    case Ban(hash) => m.(knownBad := m.knownBad + {hash})
  }

  ghost predicate Run(o: Oracles, states: seq<Memory>, steps: seq<Step>) {
    |states| == |steps| + 1 && forall i | 0 <= i < |steps| :: states[i + 1] == Next(o, states[i], steps[i])
  }

  /** Over every run of installations no ECU ever goes back to an older version, or to none. */
  lemma {:induction false} NeverDowngraded(o: Oracles, states: seq<Memory>, steps: seq<Step>, i: nat, j: nat, ecu: int)
    requires Run(o, states, steps) && i <= j <= |steps| && ecu in states[i].installed
    ensures ecu in states[j].installed && AtLeast(states[j].installed[ecu], states[i].installed[ecu])
  {
    if i < j {
      NeverDowngraded(o, states, steps, i, j - 1, ecu);
      assert states[j] == Next(o, states[j - 1], steps[j - 1]);
      hide ParseHeader, SignatureOk, HashOk;
    }
  }
}
