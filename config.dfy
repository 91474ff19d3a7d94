/**
 * Where the tool finds its serial port: "/dev/ttyS0" unless a line of the
 * ComProxy configuration starts with "physical_port=" (letters in any case);
 * every such line overrides the previous one, so the last one wins and the
 * rest of that line is the port name.
 */
module Config {

  import opened Fields

  const DefaultPort: string := "/dev/ttyS0"
  const PhysicalPortKey: string := "physical_port="

  /** The lower-case form of an ASCII letter; any other character is left alone. */
  function LowerAscii(c: char): (d: char)
    ensures 'A' <= c <= 'Z' ==> 'a' <= d <= 'z' && d as int == c as int + 32
    ensures !('A' <= c <= 'Z') ==> d == c
  {
    if 'A' <= c <= 'Z' then (c as int + 32) as char else c
  }

  /** `c` and `d` are the same character up to the case of an ASCII letter. */
  predicate SameIgnoringCase(c: char, d: char) {
    LowerAscii(c) == LowerAscii(d)
  }

  /**
   * `line` starts with `prefix`, letters compared without regard to case:
   * folding both to lower case, the prefix's folding begins the line's.
   */
  predicate StartsWithIgnoringCase(line: string, prefix: string)
    ensures prefix <= line ==> StartsWithIgnoringCase(line, prefix)
  {
    |prefix| <= |line| && forall i :: 0 <= i < |prefix| ==> SameIgnoringCase(line[i], prefix[i])
  }

  /** The comparison is a prefix test on the lower-case foldings of both strings. */
  lemma StartsWithFolded(line: string, prefix: string)
    ensures StartsWithIgnoringCase(line, prefix) <==> MapSeq(LowerAscii, prefix) <= MapSeq(LowerAscii, line)
  {
    var fl, fp := MapSeq(LowerAscii, line), MapSeq(LowerAscii, prefix);
    if fp <= fl {
      assert forall i :: 0 <= i < |prefix| ==> fp[i] == fl[i];
    }
    if StartsWithIgnoringCase(line, prefix) {
      assert fp == fl[..|prefix|];
    }
  }

  predicate IsPortLine(line: string) {
    StartsWithIgnoringCase(line, PhysicalPortKey)
  }

  /**
   * The port-name lookup in `Main`: scan every line, and on each line that
   * starts with the key take the rest of the line as the port name.
   */
  method ResolvePortName(lines: seq<string>) returns (portName: string)
    ensures (forall k :: 0 <= k < |lines| ==> !IsPortLine(lines[k])) ==> portName == DefaultPort
    ensures (exists k :: 0 <= k < |lines| && IsPortLine(lines[k])) ==>
      exists k :: 0 <= k < |lines| && IsPortLine(lines[k]) && portName == lines[k][|PhysicalPortKey|..]
        && forall j :: k < j < |lines| ==> !IsPortLine(lines[j])
  {
    portName := DefaultPort;
    ghost var last := -1;
    for i := 0 to |lines|
      invariant -1 <= last < i
      invariant last == -1 ==> portName == DefaultPort && forall k :: 0 <= k < i ==> !IsPortLine(lines[k])
      invariant last >= 0 ==> IsPortLine(lines[last]) && portName == lines[last][|PhysicalPortKey|..]
      invariant forall j :: last < j < i ==> !IsPortLine(lines[j])
    {
      var line := lines[i];
      if IsPortLine(line) {
        portName := line[|PhysicalPortKey|..];
        last := i;
      }
    }
  }

  /** The key matches however its letters are cased. */
  lemma KeyMatchesAnyCase(line: string)
    requires |line| >= |PhysicalPortKey|
    requires forall i :: 0 <= i < |PhysicalPortKey| ==> LowerAscii(line[i]) == PhysicalPortKey[i]
    ensures IsPortLine(line)
  {
    forall i | 0 <= i < |PhysicalPortKey|
      ensures SameIgnoringCase(line[i], PhysicalPortKey[i])
    {
      assert LowerAscii(PhysicalPortKey[i]) == PhysicalPortKey[i];
    }
  }
}
