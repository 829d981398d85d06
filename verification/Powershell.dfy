/**
 stembuild/construct: how a PowerShell command is encoded for -EncodedCommand, and how
 the WinRM module is started with it on the guest.
 */
module Powershell {
  import opened Basics
  import Utf8
  import Utf16
  import Base64

  /** What the guest recovers: strict Base64, little-endian units, strict UTF-16. */
  function GuestDecode(s: string): (rs: Option<seq<int>>) {
    match Base64.Decode(s)
    case None => None
    case Some(bs) =>
      match Utf16.PairUnits(bs)
      case None => None
      case Some(us) => Utf16.Decode(us)
  }

  function Units(command: Bytes): seq<Utf16.unit16> {
    Utf16.Encode(Utf8.DecodeRunes(command))
  }

  function Encoding(command: Bytes): string {
    Base64.Encode(Utf16.LittleEndian(Units(command)))
  }

  /**
   The guest runs exactly Go's runes of the command, whatever its bytes: the scalar value that is
   encoded at each place, and one U+FFFD for each byte at which none is.
   */
  lemma {:induction false} GuestRunsTheRunes(command: Bytes)
    ensures GuestDecode(Encoding(command)) == Some(Utf8.DecodeRunes(command))
    ensures Utf8.IsReading(command, GuestDecode(Encoding(command)).value)
  {
    var us := Units(command);
    Utf8.DecodeIsTheReading(command, Utf8.DecodeRunes(command));
    Base64.DecodeOfEncode(Utf16.LittleEndian(us));
    Utf16.PairOfLittleEndian(us);
    Utf8.DecodedAreScalars(command);
    Utf16.DecodeOfEncode(Utf8.DecodeRunes(command));
  }

  /** For code points written as UTF-8 the round trip is exact, supplementary planes included. */
  lemma {:induction false} GuestRunsTheCodePoints(codePoints: seq<int>)
    requires Utf8.IsScalars(codePoints)
    ensures GuestDecode(Encoding(Utf8.EncodeRunes(codePoints))) == Some(codePoints)
  {
    Utf8.DecodeOfEncode(codePoints);
    GuestRunsTheRunes(Utf8.EncodeRunes(codePoints));
  }

  /** The guest can restore a command's bytes exactly when they were UTF-8. */
  lemma {:induction false} GuestRestoresTheBytes(command: Bytes)
    ensures GuestDecode(Encoding(command)).Some?
    ensures Utf8.IsScalars(GuestDecode(Encoding(command)).value)
    ensures Utf8.IsUtf8(command) <==> Utf8.EncodeRunes(GuestDecode(Encoding(command)).value) == command
  {
    GuestRunsTheRunes(command);
    Utf8.EncodeOfDecode(command);
  }

  lemma {:induction false} EqualEncodings(a: Bytes, b: Bytes)
    ensures Encoding(a) == Encoding(b) <==> Utf8.DecodeRunes(a) == Utf8.DecodeRunes(b)
  {
    GuestRunsTheRunes(a);
    GuestRunsTheRunes(b);
  }

  /** Length, and exactly which positions are padding, from the number of UTF-16 units. */
  lemma {:induction false} EncodingShape(command: Bytes)
    ensures |Encoding(command)| == 4 * CeilDiv(2 * |Units(command)|, 3)
    ensures forall i :: 0 <= i < |Encoding(command)| ==>
                          (Encoding(command)[i] == '=' <==>
                             i >= |Encoding(command)| - (3 - 2 * |Units(command)| % 3) % 3)
  {
    Base64.EncodeShape(Utf16.LittleEndian(Units(command)));
  }

  /** The encoding's fill bits are zero: no other text decodes to the same bytes. */
  lemma {:induction false} EncodingIsCanonical(command: Bytes, s: string)
    requires Base64.Decode(s).Some? && Base64.Decode(s) == Base64.Decode(Encoding(command))
    ensures s == Encoding(command)
  {
    Base64.DecodeOfEncode(Utf16.LittleEndian(Units(command)));
    Base64.DecodeIsCanonical(s);
  }

  /**
   Each stage at work: a supplementary code point, and a byte that is not UTF-8 before a newline.
   */
  lemma {:induction false} Samples()
    ensures Encoding([0xF0, 0xA3, 0x8E, 0xB4]) == "TNi03w=="
    ensures Encoding([0xE9, 0x0A]) == "/f8KAA=="
  {
    SampleScalar();
    SampleStray();
  }

  /** U+233B4, the example of RFC 3629 section 7. */
  lemma {:induction false} SampleScalar()
    ensures Encoding([0xF0, 0xA3, 0x8E, 0xB4]) == "TNi03w=="
  {
    SampleRune([0xF0, 0xA3, 0x8E, 0xB4]);
    assert Utf16.Encode([0x233B4]) == [0xD84C, 0xDFB4];
    SampleBytes(0x4C, 0xD8, 0xB4, 0xDF);
    assert Base64.Symbols([19, 13, 34, 52, 55, 48]) == "TNi03w";
  }

  lemma {:induction false} SampleRune(s: Bytes)
    requires s == [0xF0, 0xA3, 0x8E, 0xB4]
    ensures Utf8.DecodeRunes(s) == [0x233B4]
  {
    Utf8.FrontOfFour(0x233B4, s);
    assert s[4..] == [] && Utf8.DecodeRunes([]) == [];
  }

  lemma {:induction false} SampleStray()
    ensures Encoding([0xE9, 0x0A]) == "/f8KAA=="
  {
    StrayRune([0xE9, 0x0A]);
    assert Utf16.Encode([0xFFFD, 0x0A]) == [0xFFFD, 0x0A];
    SampleBytes(0xFD, 0xFF, 0x0A, 0);
    assert Base64.Symbols([63, 31, 60, 10, 0, 0]) == "/f8KAA";
  }

  lemma {:induction false} StrayRune(s: Bytes)
    requires s == [0xE9, 0x0A]
    ensures Utf8.DecodeRunes(s) == [0xFFFD, 0x0A]
  {
    assert s[1..] == [0x0A] && s[1..][1..] == [];
    assert Utf8.DecodeRunes(s[1..]) == [0x0A];
  }

  /** Two units, low byte first, and the six sextets of their bytes. */
  lemma {:induction false} SampleBytes(w: byte, x: byte, y: byte, z: byte)
    ensures Utf16.LittleEndian([w + 0x100 * x as int, y + 0x100 * z as int]) == [w, x, y, z]
    ensures Base64.Sextets([w, x, y, z])
         == [w / 4, w % 4 * 16 + x / 16, x % 16 * 4 + y / 64, y % 64, z / 4, z % 4 * 16]
  {
    var units: seq<Utf16.unit16> := [w + 0x100 * x as int, y + 0x100 * z as int];
    assert units[1..] == [units[1]] && [units[1]][1..] == [];
    var bytes: Bytes := [w, x, y, z];
    assert bytes[3..] == [z];
  }

  /** EncodePowershellCommand: the buffer grows by one unit, low byte first, per iteration. */
  method EncodePowershellCommand(command: Bytes) returns (encoded: string)
    ensures GuestDecode(encoded).Some? && Utf8.IsReading(command, GuestDecode(encoded).value)
    ensures encoded == Encoding(command)
  {
    var utf16Command := Utf16.Encode(Utf8.DecodeRunes(command));
    var byteCommand: Bytes := [];
    for i := 0 to |utf16Command|
      invariant byteCommand == Utf16.LittleEndian(utf16Command[..i])
    {
      var u := utf16Command[i];
      byteCommand := byteCommand + [u % 0x100, u / 0x100];
      Utf16.LittleEndianSnoc(utf16Command[..i], u);
      assert utf16Command[..i + 1] == utf16Command[..i] + [u];
    }
    assert utf16Command[..|utf16Command|] == utf16Command;
    encoded := Base64.Encode(byteCommand);
    GuestRunsTheRunes(command);
  }

  const INVOCATION := "\nEnable-WinRM\n"

  function CodePoints(s: string): seq<int> {
    seq(|s|, i requires 0 <= i < |s| => s[i] as int)
  }

  predicate IsAscii(s: string) {
    forall i :: 0 <= i < |s| ==> s[i] as int < 0x80
  }

  function AsciiBytes(s: string): (bs: Bytes)
    requires IsAscii(s)
  {
    seq(|s|, i requires 0 <= i < |s| => s[i] as int)
  }

  lemma {:induction false} AsciiDecodes(s: string)
    requires IsAscii(s)
    ensures Utf8.DecodeRunes(AsciiBytes(s)) == CodePoints(s)
  {
    if s != [] {
      assert AsciiBytes(s)[1..] == AsciiBytes(s[1..]);
      AsciiDecodes(s[1..]);
    }
  }

  /** The decoded module, then exactly the invocation line, even after a truncated sequence. */
  lemma {:induction false} InvocationSurvives(rawModule: Bytes)
    ensures Utf8.DecodeRunes(rawModule + AsciiBytes("\nEnable-WinRM\n"))
         == Utf8.DecodeRunes(rawModule) + CodePoints("\nEnable-WinRM\n")
  {
    Utf8.DecodeDistributesFrom(rawModule, AsciiBytes(INVOCATION));
    AsciiDecodes(INVOCATION);
  }

  /** What the guest decodes: the reading of the module's bytes, then the code points of the invocation line. */
  ghost predicate IsModuleWithCall(rawModule: Bytes, runes: seq<int>) {
    exists rs :: Utf8.IsReading(rawModule, rs) && runes == rs + CodePoints("\nEnable-WinRM\n")
  }

  lemma {:induction false} ModuleIsRead(rawModule: Bytes)
    ensures var decoded := GuestDecode(Encoding(rawModule + AsciiBytes(INVOCATION)));
            decoded.Some? && IsModuleWithCall(rawModule, decoded.value)
  {
    GuestRunsTheRunes(rawModule + AsciiBytes(INVOCATION));
    InvocationSurvives(rawModule);
    Utf8.DecodeIsTheReading(rawModule, Utf8.DecodeRunes(rawModule));
  }

  /** An answer of a collaborator: a value or an error. */
  datatype Answer<+T> = Ok(value: T) | Failed

  const OPTION := "-EncodedCommand "

  /**
   WinRMManager.Enable.  The parameters are what the unarchiver and the guest answer, in
   call order; started is the argument line the guest was asked to run, if it was.
   */
  method Enable(modulesZip: Answer<Bytes>, rawModule: Answer<Bytes>, pid: Answer<int>, exitCode: Answer<int>)
    returns (ok: bool, started: Option<string>)
    ensures started.Some? <==> modulesZip.Ok? && rawModule.Ok?
    ensures started.Some? ==>
              && "-EncodedCommand " <= started.value
              && var decoded := GuestDecode(started.value[|"-EncodedCommand "|..]);
                 decoded.Some? && IsModuleWithCall(rawModule.value, decoded.value)
    ensures ok <==> modulesZip.Ok? && rawModule.Ok? && pid.Ok? && exitCode == Ok(0)
  {
    ok, started := false, None;
    if modulesZip.Failed? || rawModule.Failed? {
      return;
    }
    var encoded := EncodePowershellCommand(rawModule.value + AsciiBytes(INVOCATION));
    ModuleIsRead(rawModule.value);
    started := Some(OPTION + encoded);
    assert started.value[|OPTION|..] == encoded;
    if pid.Failed? || exitCode.Failed? {
      return;
    }
    ok := exitCode.value == 0;
  }
}
