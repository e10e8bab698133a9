/** The header of a WAV file: what pcm_validwav accepts is exactly the headers that the format describes, and
    pcm_parsewav picks off what such a header says. */
module PcmWav {
  import opened Common

  /** sizeof(struct wav_header_s). */
  const HEADER: nat := 44

  function Le32(s: seq<byte>, i: nat): nat
    requires i + 4 <= |s|
  {
    Le16(s, i) + 0x1_0000 * Le16(s, i + 2)
  }

  /** pcm_validwav. */
  predicate ValidWav(s: seq<byte>)
    requires |s| >= HEADER
  {
    && Le32(s, 0) == 0x46464952 && Le32(s, 8) == 0x45564157
    && Le32(s, 12) == 0x20746d66 && Le32(s, 16) == 16 && Le16(s, 20) == 1
    && Le16(s, 22) < 256 && Le16(s, 32) < 256 && Le16(s, 34) < 256
    && Le32(s, 36) == 0x61746164
  }

  datatype Format = Format(samprate: nat, byterate: nat, align: nat, bpsamp: nat, nchannels: nat)

  function FormatOf(s: seq<byte>): Format
    requires |s| >= HEADER
  {
    Format(Le32(s, 24), Le32(s, 28), Le16(s, 32), Le16(s, 34), Le16(s, 22))
  }

  const EINVAL: int := 22

  /** An error code where a truth value is asked for. */
  predicate AsBool(code: int) { code != 0 }

  /** The verdict of pcm_parsewav on a header.  The negative error code it returns for a sample size or a
      number of channels that it does not support counts as `true`. */
  predicate Accepted(s: seq<byte>)
    requires |s| >= HEADER
  {
    if !ValidWav(s) then false
    else if FormatOf(s).bpsamp != 8 && FormatOf(s).bpsamp != 16 then AsBool(-EINVAL)
    else if FormatOf(s).nchannels != 1 && FormatOf(s).nchannels != 2 then AsBool(-EINVAL)
    else true
  }

  lemma FormatNeverRejected(s: seq<byte>)
    requires |s| >= HEADER
    ensures Accepted(s) <==> ValidWav(s)
  {}

  // ----- the format -----

  /** Two and four bytes, the low one first. */
  function Two(n: nat): (r: seq<byte>)
    requires n < 0x1_0000
    ensures |r| == 2
  {
    [n % 0x100, n / 0x100]
  }

  function Four(n: nat): (r: seq<byte>)
    requires n < 0x1_0000_0000
    ensures |r| == 4
  {
    Two(n % 0x1_0000) + Two(n / 0x1_0000)
  }

  function Tag(a: char, b: char, c: char, d: char): (r: seq<byte>)
    requires a < '\U{100}' && b < '\U{100}' && c < '\U{100}' && d < '\U{100}'
    ensures |r| == 4
  {
    [a as int, b as int, c as int, d as int]
  }

  /** The values fit their fields; the decoder keeps three of them in eight bits. */
  predicate Fits(f: Format) {
    && f.samprate < 0x1_0000_0000 && f.byterate < 0x1_0000_0000
    && f.align < 0x100 && f.bpsamp < 0x100 && f.nchannels < 0x100
  }

  /** RIFF and a length, WAVE; fmt, 16 and the code 1 of linear PCM, channels, samples and bytes in a second, bytes in a
      sample of all channels, bits in a sample of one; data and a length. */
  function Header(f: Format, riff: nat, data: nat): (h: seq<byte>)
    requires Fits(f) && riff < 0x1_0000_0000 && data < 0x1_0000_0000
    ensures |h| == 44
  {
    Tag('R', 'I', 'F', 'F') + Four(riff) + Tag('W', 'A', 'V', 'E')
    + Tag('f', 'm', 't', ' ') + Four(16) + Two(1) + Two(f.nchannels) + Four(f.samprate) + Four(f.byterate)
    + Two(f.align) + Two(f.bpsamp)
    + Tag('d', 'a', 't', 'a') + Four(data)
  }

  lemma TwoExact(s: seq<byte>, i: nat, n: nat)
    requires i + 2 <= |s| && n < 0x1_0000
    ensures s[i..i + 2] == Two(n) <==> Le16(s, i) == n
  {
    assert s[i..i + 2] == [s[i], s[i + 1]];
  }

  lemma FourExact(s: seq<byte>, i: nat, n: nat)
    requires i + 4 <= |s| && n < 0x1_0000_0000
    ensures s[i..i + 4] == Four(n) <==> Le32(s, i) == n
  {
    hide Two, Le16;
    TwoExact(s, i, n % 0x1_0000);
    TwoExact(s, i + 2, n / 0x1_0000);
    Le16Bounds(s, i);
    Le16Bounds(s, i + 2);
    assert s[i..i + 4] == s[i..i + 2] + s[i + 2..i + 4];
    assert s[i..i + 4][..2] == s[i..i + 2] && s[i..i + 4][2..] == s[i + 2..i + 4];
    assert Four(n)[..2] == Two(n % 0x1_0000) && Four(n)[2..] == Two(n / 0x1_0000);
  }

  lemma Le16Bounds(s: seq<byte>, i: nat)
    requires i + 2 <= |s|
    ensures Le16(s, i) < 0x1_0000
  {}

  lemma Le32Bounds(s: seq<byte>, i: nat)
    requires i + 4 <= |s|
    ensures Le32(s, i) < 0x1_0000_0000
  {
    Le16Bounds(s, i);
    Le16Bounds(s, i + 2);
  }

  lemma Tags()
    ensures Tag('R', 'I', 'F', 'F') == Four(0x46464952) && Tag('W', 'A', 'V', 'E') == Four(0x45564157)
    ensures Tag('f', 'm', 't', ' ') == Four(0x20746d66) && Tag('d', 'a', 't', 'a') == Four(0x61746164)
  {}

  /** The fields one after the other. */
  lemma Fields(s: seq<byte>)
    requires |s| == 44
    ensures s == s[0..4] + s[4..8] + s[8..12] + s[12..16] + s[16..20] + s[20..22] + s[22..24] + s[24..28] + s[28..32]
                 + s[32..34] + s[34..36] + s[36..40] + s[40..44]
  {}

  lemma HeaderFields(f: Format, riff: nat, data: nat)
    requires Fits(f) && riff < 0x1_0000_0000 && data < 0x1_0000_0000
    ensures var h := Header(f, riff, data);
            && h[0..4] == Four(0x46464952) && h[8..12] == Four(0x45564157) && h[12..16] == Four(0x20746d66)
            && h[16..20] == Four(16) && h[20..22] == Two(1) && h[22..24] == Two(f.nchannels)
            && h[24..28] == Four(f.samprate) && h[28..32] == Four(f.byterate) && h[32..34] == Two(f.align)
            && h[34..36] == Two(f.bpsamp) && h[36..40] == Four(0x61746164)
  {
    hide Two, Four, Tag;
    Tags();
  }

  /** A header that the format describes is accepted and understood. */
  lemma HeaderIsParsed(f: Format, riff: nat, data: nat)
    requires Fits(f) && riff < 0x1_0000_0000 && data < 0x1_0000_0000
    ensures ValidWav(Header(f, riff, data)) && FormatOf(Header(f, riff, data)) == f
  {
    hide Two, Four, Tag, Header, Le16, Le32;
    HeaderFields(f, riff, data);
    var h := Header(f, riff, data);
    FourExact(h, 0, 0x46464952);
    FourExact(h, 8, 0x45564157);
    FourExact(h, 12, 0x20746d66);
    FourExact(h, 16, 16);
    TwoExact(h, 20, 1);
    TwoExact(h, 22, f.nchannels);
    FourExact(h, 24, f.samprate);
    FourExact(h, 28, f.byterate);
    TwoExact(h, 32, f.align);
    TwoExact(h, 34, f.bpsamp);
    FourExact(h, 36, 0x61746164);
  }

  /** What is accepted is such a header. */
  lemma ParsedIsHeader(s: seq<byte>)
    requires |s| == 44 && ValidWav(s)
    ensures Le32(s, 4) < 0x1_0000_0000 && Le32(s, 40) < 0x1_0000_0000
    ensures Fits(FormatOf(s)) && s == Header(FormatOf(s), Le32(s, 4), Le32(s, 40))
  {
    hide Two, Four, Tag, Le16, Le32;
    var f := FormatOf(s);
    Le32Bounds(s, 4);
    Le32Bounds(s, 24);
    Le32Bounds(s, 28);
    Le32Bounds(s, 40);
    Tags();
    FourExact(s, 0, 0x46464952);
    FourExact(s, 4, Le32(s, 4));
    FourExact(s, 8, 0x45564157);
    FourExact(s, 12, 0x20746d66);
    FourExact(s, 16, 16);
    TwoExact(s, 20, 1);
    TwoExact(s, 22, f.nchannels);
    FourExact(s, 24, f.samprate);
    FourExact(s, 28, f.byterate);
    TwoExact(s, 32, f.align);
    TwoExact(s, 34, f.bpsamp);
    FourExact(s, 36, 0x61746164);
    FourExact(s, 40, Le32(s, 40));
    Fields(s);
  }

  /** pcm_parsewav accepts exactly the headers of the format, and takes from each the values it was made from. */
  lemma HeaderExact(s: seq<byte>)
    requires |s| == 44
    ensures Accepted(s) <==> exists f, riff: nat, data: nat ::
              Fits(f) && riff < 0x1_0000_0000 && data < 0x1_0000_0000 && s == Header(f, riff, data)
    ensures forall f, riff: nat, data: nat ::
              Fits(f) && riff < 0x1_0000_0000 && data < 0x1_0000_0000 && s == Header(f, riff, data) ==> FormatOf(s) == f
  {
    hide ValidWav, FormatOf, Header, Accepted;
    FormatNeverRejected(s);
    forall f, riff: nat, data: nat |
      Fits(f) && riff < 0x1_0000_0000 && data < 0x1_0000_0000 && s == Header(f, riff, data)
      ensures ValidWav(s) && FormatOf(s) == f
    {
      HeaderIsParsed(f, riff, data);
    }
    if ValidWav(s) {
      ParsedIsHeader(s);
    }
  }
}
