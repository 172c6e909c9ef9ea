/**
 * The file helpers the decoder uses on data it already holds: writing 32-bit
 * integers as big-endian bytes, the directory part of a path, splitting a
 * character stream into lines (optionally without repeats), and joining the
 * lines of a file back into one string.
 */
module FileUtility {

  /** A Java `int`. */
  newtype Int32 = x: int | -0x8000_0000 <= x < 0x8000_0000

  /** One octet as it reaches the output stream. */
  newtype Byte = x: int | 0 <= x < 0x100

  // ---------------------------------------------------------------------------
  // writeBytes

  /** The 32-bit two's-complement pattern of `w`, read as an unsigned number. */
  function Unsigned(w: Int32): (u: int)
    ensures 0 <= u < 0x1_0000_0000
    ensures u % 0x1_0000_0000 == (w as int) % 0x1_0000_0000
  {
    if w < 0 then w as int + 0x1_0000_0000 else w as int
  }

  /**
   * The four bytes written for one `int`: `(word >>> s) & 0xFF` for
   * s = 24, 16, 8, 0, most significant first.
   */
  function WordBytes(w: Int32): (bs: seq<Byte>)
    ensures |bs| == 4
  {
    var u := Unsigned(w);
    [(u / 0x100_0000 % 0x100) as Byte, (u / 0x1_0000 % 0x100) as Byte,
     (u / 0x100 % 0x100) as Byte, (u % 0x100) as Byte]
  }

  /** The bytes of all the words, in order. */
  function Encode(data: seq<Int32>): seq<Byte> {
    if data == [] then [] else Encode(data[..|data| - 1]) + WordBytes(data[|data| - 1])
  }

  /** The `int` four big-endian bytes stand for. */
  function Word(b0: Byte, b1: Byte, b2: Byte, b3: Byte): Int32 {
    var u := b0 as int * 0x100_0000 + b1 as int * 0x1_0000 + b2 as int * 0x100 + b3 as int;
    (if u >= 0x8000_0000 then u - 0x1_0000_0000 else u) as Int32
  }

  /**
   * Reading the bytes back into words, four at a time from the end; a
   * remainder of fewer than four bytes at the front is not read (the bytes
   * `writeBytes` produces always come in whole groups).
   */
  function Decode(bs: seq<Byte>): seq<Int32>
  {
    if |bs| < 4 then []
    else
      var n := |bs|;
      Decode(bs[..n - 4]) + [Word(bs[n - 4], bs[n - 3], bs[n - 2], bs[n - 1])]
  }

  /** The unsigned pattern is recovered from its four base-256 digits. */
  lemma DigitsOfUnsigned(u: int)
    requires 0 <= u < 0x1_0000_0000
    ensures (u / 0x100_0000 % 0x100) * 0x100_0000 + (u / 0x1_0000 % 0x100) * 0x1_0000
            + (u / 0x100 % 0x100) * 0x100 + u % 0x100 == u
  {
    var q1, r0 := u / 0x100, u % 0x100;
    var q2, r1 := q1 / 0x100, q1 % 0x100;
    var q3, r2 := q2 / 0x100, q2 % 0x100;
    assert u == q1 * 0x100 + r0;
    assert q1 == q2 * 0x100 + r1;
    assert q2 == q3 * 0x100 + r2;
    assert q3 < 0x100;
    assert u / 0x1_0000 == q2;
    assert u / 0x100_0000 == q3;
  }

  /** Each word's bytes decode to the word itself, the sign included. */
  lemma WordOfWordBytes(w: Int32)
    ensures var bs := WordBytes(w); Word(bs[0], bs[1], bs[2], bs[3]) == w
  {
    DigitsOfUnsigned(Unsigned(w));
  }

  /** Exactly four bytes are written per word. */
  lemma {:induction false} EncodeLength(data: seq<Int32>)
    ensures |Encode(data)| == 4 * |data|
  {
    if data != [] {
      EncodeLength(data[..|data| - 1]);
    }
  }

  /** Decoding one more group of four bytes gives one more word. */
  lemma DecodeSnoc(bs: seq<Byte>, group: seq<Byte>)
    requires |group| == 4
    ensures Decode(bs + group) == Decode(bs) + [Word(group[0], group[1], group[2], group[3])]
  {
    var all := bs + group;
    assert all[..|all| - 4] == bs;
    assert all[|all| - 4..] == group;
  }

  /** Reading the written bytes back gives the words that were written. */
  lemma {:induction false} DecodeEncode(data: seq<Int32>)
    ensures Decode(Encode(data)) == data
  {
    if data != [] {
      var init, last := data[..|data| - 1], data[|data| - 1];
      DecodeEncode(init);
      DecodeOneWord(Encode(init), last);
      assert init + [last] == data;
    }
  }

  /** Decoding the bytes of one more word gives back that word. */
  lemma DecodeOneWord(bs: seq<Byte>, w: Int32)
    ensures Decode(bs + WordBytes(w)) == Decode(bs) + [w]
  {
    WordOfWordBytes(w);
    DecodeGroup(bs, WordBytes(w), w);
  }

  lemma DecodeGroup(bs: seq<Byte>, group: seq<Byte>, w: Int32)
    requires |group| == 4
    requires Word(group[0], group[1], group[2], group[3]) == w
    ensures Decode(bs + group) == Decode(bs) + [w]
  {
    DecodeSnoc(bs, group);
  }

  /** The `OutputStream`: what has been written to it so far. */
  class ByteSink {
    var written: seq<Byte>

    constructor ()
      ensures written == []
    {
      written := [];
    }

    /** `out.write(b)`: the whole buffer is appended. */
    method Write(b: array<Byte>)
      modifies this
      ensures written == old(written) + b[..]
    {
      written := written + b[..];
    }
  }

  /**
   * `writeBytes(data, out)`: one 4-byte buffer, refilled for each word with its
   * bytes, most significant first, and written out.
   */
  method WriteBytes(data: array<Int32>, out: ByteSink)
    modifies out
    ensures out.written == old(out.written) + Encode(data[..])
  {
    var b := new Byte[4];
    for i := 0 to data.Length
      invariant out.written == old(out.written) + Encode(data[..i])
    {
      var word := data[i];
      var u := Unsigned(word);
      b[0] := (u / 0x100_0000 % 0x100) as Byte;
      b[1] := (u / 0x1_0000 % 0x100) as Byte;
      b[2] := (u / 0x100 % 0x100) as Byte;
      b[3] := (u % 0x100) as Byte;
      assert b[..] == WordBytes(word);
      out.Write(b);
      assert data[..i + 1][..i] == data[..i];
    }
    assert data[..data.Length] == data[..];
  }

  // ---------------------------------------------------------------------------
  // dirname

  /** The position of the last `c` in `s`, or -1. */
  function LastIndexOf(s: string, c: char): (i: int)
    ensures -1 <= i < |s|
    ensures i >= 0 ==> s[i] == c
    ensures forall k :: i < k < |s| ==> s[k] != c
  {
    if s == [] then -1
    else if s[|s| - 1] == c then |s| - 1
    else LastIndexOf(s[..|s| - 1], c)
  }

  /**
   * `dirname(fileName)`: everything before the last separator, or `.` when
   * there is no separator. `sep` is the platform's `File.separator`.
   */
  function Dirname(fileName: string, sep: char): (r: string)
    ensures sep !in fileName ==> r == "."
    ensures sep in fileName ==>
      && r < fileName
      && fileName[|r|] == sep
      && sep !in fileName[|r| + 1..]
  {
    if sep in fileName then
      var i := LastIndexOf(fileName, sep);
      assert i >= 0 by {
        var k :| 0 <= k < |fileName| && fileName[k] == sep;
      }
      fileName[..i]
    else "."
  }

  /** A directory joined with a file name by a separator gives the directory back. */
  lemma DirnameOfJoin(dir: string, base: string, sep: char)
    requires sep !in base
    ensures Dirname(dir + [sep] + base, sep) == dir
  {
    var p := dir + [sep] + base;
    assert p[|dir|] == sep;
    assert forall k :: |dir| < k < |p| ==> p[k] == base[k - |dir| - 1];
    assert p[..|dir|] == dir;
  }

  // ---------------------------------------------------------------------------
  // getLines and getFileAsString

  /** `list.add(line)`, unless duplicates are dropped and the line is there already. */
  function AddLine(list: seq<string>, line: string, keepDuplicates: bool): seq<string> {
    if keepDuplicates || line !in list then list + [line] else list
  }

  /** The reading state after some characters: the lines finished and the line being built. */
  datatype Scan = Scan(list: seq<string>, line: string)

  function ScanChars(text: string, keepDuplicates: bool): Scan {
    if text == [] then Scan([], "")
    else
      var before := ScanChars(text[..|text| - 1], keepDuplicates);
      var c := text[|text| - 1];
      if c == '\n' then Scan(AddLine(before.list, before.line, keepDuplicates), "")
      else Scan(before.list, before.line + [c])
  }

  /** The lines of `text`: cut at every newline, the last piece added at the end of input. */
  function Lines(text: string, keepDuplicates: bool): seq<string> {
    var s := ScanChars(text, keepDuplicates);
    AddLine(s.list, s.line, keepDuplicates)
  }

  /**
   * `getLines`: characters are read one at a time; a newline or the end of
   * input finishes the current line (added unless it is a repeat that is not
   * wanted); the end of input also stops the reading.
   */
  method GetLines(text: string, keepDuplicates: bool) returns (list: seq<string>)
    ensures list == Lines(text, keepDuplicates)
  {
    list := [];
    var line := "";
    var k := 0;
    while true
      invariant 0 <= k <= |text|
      invariant Scan(list, line) == ScanChars(text[..k], keepDuplicates)
      decreases |text| - k
    {
      var current := if k < |text| then text[k] as int else -1;
      if current == -1 || current == '\n' as int {
        if keepDuplicates || line !in list {
          list := list + [line];
        }
        line := "";
        if current == -1 {
          assert text[..k] == text;
          return;
        }
      } else {
        line := line + [current as char];
      }
      assert text[..k + 1][..k] == text[..k];
      k := k + 1;
    }
  }

  function NewlineCount(text: string): nat {
    if text == [] then 0
    else NewlineCount(text[..|text| - 1]) + (if text[|text| - 1] == '\n' then 1 else 0)
  }

  /** With duplicates kept, one line per newline plus the last one; never empty. */
  lemma {:induction false} LinesCount(text: string)
    ensures |ScanChars(text, true).list| == NewlineCount(text)
    ensures |Lines(text, true)| == NewlineCount(text) + 1
  {
    if text != [] {
      LinesCount(text[..|text| - 1]);
    }
  }

  /** There is always at least one line, even for empty input. */
  lemma LinesNeverEmpty(text: string, keepDuplicates: bool)
    ensures Lines(text, keepDuplicates) != []
  {
  }

  /** `xs` without repeats, each element where it first occurs. */
  function Dedup(xs: seq<string>): seq<string> {
    if xs == [] then []
    else AddLine(Dedup(xs[..|xs| - 1]), xs[|xs| - 1], false)
  }

  predicate NoRepeats(xs: seq<string>) {
    forall i, j :: 0 <= i < j < |xs| ==> xs[i] != xs[j]
  }

  /** The deduplicated list has no repeats and the same elements. */
  lemma {:induction false} DedupFacts(xs: seq<string>)
    ensures NoRepeats(Dedup(xs))
    ensures forall x :: x in Dedup(xs) <==> x in xs
  {
    if xs != [] {
      var init := xs[..|xs| - 1];
      DedupFacts(init);
      assert xs == init + [xs[|xs| - 1]];
    }
  }

  /** Dropping duplicates while reading is the same as dropping them from the full list. */
  lemma {:induction false} ScanDedups(text: string)
    ensures ScanChars(text, false).line == ScanChars(text, true).line
    ensures ScanChars(text, false).list == Dedup(ScanChars(text, true).list)
  {
    if text != [] {
      var init := text[..|text| - 1];
      ScanDedups(init);
      var kept := ScanChars(init, true).list;
      assert (kept + [ScanChars(init, true).line])[..|kept|] == kept;
    }
  }

  /**
   * Without duplicates, the lines are those with duplicates, each kept where
   * it first occurs: no line twice, and no line lost.
   */
  lemma LinesWithoutDuplicates(text: string)
    ensures Lines(text, false) == Dedup(Lines(text, true))
    ensures NoRepeats(Lines(text, false))
    ensures forall x :: x in Lines(text, false) <==> x in Lines(text, true)
  {
    ScanDedups(text);
    var all := ScanChars(text, true);
    assert (all.list + [all.line])[..|all.list|] == all.list;
    DedupFacts(Lines(text, true));
  }

  /** Lines joined by newlines, with none after the last. */
  function JoinLines(lines: seq<string>): string {
    if lines == [] then ""
    else if |lines| == 1 then lines[0]
    else JoinLines(lines[..|lines| - 1]) + "\n" + lines[|lines| - 1]
  }

  /** Every line followed by a newline. */
  function Terminated(lines: seq<string>): string {
    if lines == [] then "" else Terminated(lines[..|lines| - 1]) + lines[|lines| - 1] + "\n"
  }

  lemma {:induction false} TerminatedThenLast(lines: seq<string>, last: string)
    ensures Terminated(lines) + last == JoinLines(lines + [last])
  {
    if lines != [] {
      var init := lines[..|lines| - 1];
      TerminatedThenLast(init, lines[|lines| - 1]);
      assert (lines + [last])[..|lines|] == lines;
      assert init + [lines[|lines| - 1]] == lines;
    }
  }

  /** Joining the lines of a text gives the text back. */
  lemma {:induction false} JoinLinesOfLines(text: string)
    ensures JoinLines(Lines(text, true)) == text
  {
    if text != [] {
      var init := text[..|text| - 1];
      var s := ScanChars(init, true);
      JoinLinesOfLines(init);
      var c := text[|text| - 1];
      if c == '\n' {
        assert (s.list + [s.line] + [""])[..|s.list| + 1] == s.list + [s.line];
      } else {
        var n := |s.list|;
        if n > 0 {
          assert (s.list + [s.line + [c]])[..n] == s.list;
          assert (s.list + [s.line])[..n] == s.list;
        }
      }
      assert init + [c] == text;
    }
  }

  /**
   * `getFileAsString`: the file's lines, each but the last followed by a
   * newline, then the last one; the result is the file's text itself.
   */
  method GetFileAsString(text: string) returns (result: string)
    ensures result == JoinLines(Lines(text, true))
    ensures result == text
  {
    var lines := GetLines(text, true);
    result := "";
    var i := 0;
    while i < |lines| - 1
      invariant 0 <= i <= |lines|
      invariant lines != [] ==> i <= |lines| - 1
      invariant result == Terminated(lines[..i])
    {
      assert lines[..i + 1][..i] == lines[..i];
      result := result + lines[i] + "\n";
      i := i + 1;
    }
    if lines != [] {
      TerminatedThenLast(lines[..|lines| - 1], lines[|lines| - 1]);
      assert lines[..|lines| - 1] + [lines[|lines| - 1]] == lines;
      result := result + lines[|lines| - 1];
    }
    JoinLinesOfLines(text);
  }
}
