/** The two cJSON printers side by side. */
module JsonPrinters {
  import opened CString
  import opened JsonTree
  import JsonMinify
  import JsonPrintAlloc
  import JsonPrintBuffer

  /** When the allocations succeed both printers give the same bytes, for every tree, format and first buffer size. */
  method PrintBoth(t: Json, prebuffer: nat, fmt: bool) returns (pieces: text, buffered: array<byte>)
    requires Printable(t)
    ensures |pieces| < buffered.Length && buffered[..|pieces|] == pieces && buffered[|pieces|] == 0
  {
    hide *;
    var p := JsonPrintAlloc.PrintItem(t, 0, fmt, true);
    var b := JsonPrintBuffer.PrintBuffered(t, prebuffer, fmt, true);
    pieces, buffered := p.value, b.value;
  }

  /** Minified in place, either print of any tree becomes its unformatted print, and nothing behind the text changes. */
  method MinifyText(a: array<byte>, ghost t: Json, ghost fmt: bool) returns (ghost n: nat)
    requires Printable(t)
    requires var s := PrintValue(t, 0, fmt); |s| < a.Length && a[..|s|] == s && a[|s|] == 0
    modifies a
    ensures n < a.Length && a[..n] == PrintValue(t, 0, false) && a[n] == 0
    ensures var k := |PrintValue(t, 0, fmt)|; n <= k && a[k + 1..] == old(a[k + 1..])
  {
    hide *;
    JsonPrintBuffer.ValueNulFree(t, 0, fmt);
    JsonMinify.MinifyPrint(t, fmt);
    n := JsonMinify.MinifyInPlace(a, PrintValue(t, 0, fmt));
  }

  /** Printed with formatting and then minified, a tree gives the bytes of the unformatted print. */
  method PrintMinified(t: Json, prebuffer: nat) returns (plain: text, minified: array<byte>)
    requires Printable(t)
    ensures |plain| < minified.Length && minified[..|plain|] == plain && minified[|plain|] == 0
  {
    hide *;
    var p := JsonPrintAlloc.PrintItem(t, 0, false, true);
    var b := JsonPrintBuffer.PrintBuffered(t, prebuffer, true, true);
    plain, minified := p.value, b.value;
    ghost var n := MinifyText(minified, t, true);
    assert |minified[..n]| == n;
  }
}
