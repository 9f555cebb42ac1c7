/** The text the daemon produces: the layer as a decimal, the D-Bus signal
    payload, the query-socket header and rows, and the socket path. */
module Text {
  import opened Frames
  import opened Numerals

  /** The value `printf("%u", kb->layer)` prints when `layer` is a plain
      `char`: on a platform where `char` is signed, a byte of 128 or more is
      promoted to a negative `int`, which `%u` reads as a 32-bit unsigned. */
  function PrintedValueAsWritten(layer: byte, charIsSigned: bool): (u: nat)
    ensures u < 0x1_0000_0000
    ensures !charIsSigned || layer < 128 ==> u == layer as nat
    ensures charIsSigned && layer >= 128 ==> u >= 0xFFFF_FF80
  {
    var promoted: int := if charIsSigned && layer >= 128 then layer as int - 256 else layer as int;
    promoted % 0x1_0000_0000
  }

  /** The layer as the source prints it. */
  function LayerTextAsWritten(layer: byte, charIsSigned: bool): (s: string)
    ensures AllDigits(s) && 1 <= |s| <= 10
  {
    var u := PrintedValueAsWritten(layer, charIsSigned);
    DecimalLengthU32(u);
    Decimal(u)
  }

  /** On a platform where `char` is signed, every layer of 128 or more
      prints as that byte plus 4294967040 (layer 200 as 4294967240), never
      as the layer itself. */
  lemma SignedCharMisprintsLayer(layer: byte)
    requires layer >= 128
    ensures ParseDecimal(LayerTextAsWritten(layer, true)) == layer as nat + 0xFFFF_FF00
    ensures LayerTextAsWritten(layer, true) != LayerText(layer)
  {
    var u := PrintedValueAsWritten(layer, true);
    assert u == layer as nat + 0xFFFF_FF00;
    ParseDecimalOfDecimal(u);
  }

  /** The layer as intended: the byte's unsigned value in decimal. */
  function LayerText(layer: byte): (s: string)
    ensures AllDigits(s) && 1 <= |s| <= 3
    ensures ParseDecimal(s) == layer as nat
  {
    DecimalLengthByte(layer as nat);
    ParseDecimalOfDecimal(layer as nat);
    Decimal(layer as nat)
  }

  /** The D-Bus signal payload `"L: <layer>"`; with its terminating NUL it
      fits the 16-byte buffer `emit_layer_signal` formats it into. */
  function Payload(layer: byte): (s: string)
    ensures 4 <= |s| && |s| + 1 <= 16
    ensures s[..3] == "L: " && AllDigits(s[3..]) && ParseDecimal(s[3..]) == layer as nat
  {
    var t := LayerText(layer);
    assert ("L: " + t)[3..] == t;
    "L: " + t
  }

  /** The payload as written also fits the buffer: `%u` prints at most ten digits. */
  function PayloadAsWritten(layer: byte, charIsSigned: bool): (s: string)
    ensures 4 <= |s| && |s| + 1 <= 16
    ensures s[..3] == "L: "
    ensures !charIsSigned || layer < 128 ==> s == Payload(layer)
  {
    "L: " + LayerTextAsWritten(layer, charIsSigned)
  }

  /** The first line of every query response. */
  const Header: string := "device\tlayer\n"

  /** One query-response row: `<path>\t<layer>\n`. */
  function Row(path: string, layer: byte): (s: string)
    ensures |s| == |path| + |LayerText(layer)| + 2
    ensures s[..|path|] == path && s[|path|] == '\t' && s[|s| - 1] == '\n'
    ensures s[|path| + 1..|s| - 1] == LayerText(layer)
    ensures ParseDecimal(s[|path| + 1..|s| - 1]) == layer as nat
  {
    var s := path + "\t" + LayerText(layer) + "\n";
    assert s[|path| + 1..|s| - 1] == LayerText(layer);
    s
  }

  /** A row for a `/dev/` path of a directory entry (at most 255 bytes long,
      NAME_MAX on Linux) always fits, with its NUL, in the 1024-byte buffer
      the server formats it into, so `snprintf` never truncates it. */
  lemma RowFitsAnswerBuffer(name: string, layer: byte)
    requires |name| <= 255
    ensures |Row("/dev/" + name, layer)| + 1 <= 1024
  {
  }

  /** The row as the source prints it (a layer of up to ten digits) fits
      the 1024-byte buffer too, so `snprintf` never truncates it either. */
  lemma RowAsWrittenFitsAnswerBuffer(name: string, layer: byte, charIsSigned: bool)
    requires |name| <= 255
    ensures |"/dev/" + name + "\t" + LayerTextAsWritten(layer, charIsSigned) + "\n"| + 1 <= 273
  {
  }

  /** The query-socket path `<XDG_RUNTIME_DIR>/lkbd.sock`; `None` when the
      variable is unset, which makes `main` exit with status 1.  With its NUL
      it exactly fills the stack buffer `main` sizes for it. */
  function SocketPath(runtimeDir: Option<string>): (p: Option<string>)
    ensures p.None? <==> runtimeDir.None?
    ensures p.Some? ==> |p.value| + 1 == |runtimeDir.value| + |"lkbd.sock"| + 2
    ensures p.Some? ==> p.value[..|runtimeDir.value|] == runtimeDir.value
    ensures p.Some? ==> p.value[|runtimeDir.value|..] == "/lkbd.sock"
  {
    match runtimeDir
    case None => None
    case Some(dir) => Some(dir + "/" + "lkbd.sock")
  }
}
