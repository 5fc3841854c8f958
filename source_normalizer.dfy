/** The source normaliser: turns the explorer's `SourceCode` field into one
    flattened document. A JSON-wrapped multi-file bundle is concatenated, with
    the per-file `pragma solidity` and `import` lines dropped from every file
    after the first; anything that does not decode is passed through as is. */
module SourceNormalizer {
  import opened Common

  /** One entry of the bundle's `sources` object: file name and its `content`. */
  datatype SourceFile = SourceFile(name: string, content: string)

  /** `JSON.parse` followed by `Object.entries(obj.sources)`: the ordered file
      entries, or None when the text is not JSON or has no `sources` object. */
  type Decoder = string -> Option<seq<SourceFile>>

  // ---------------------------------------------------------------------------
  // String.prototype.substring

  function Clamp(i: int, n: nat): (r: nat)
    ensures r <= n
  {
    if i < 0 then 0 else if i > n then n else i
  }

  /** JavaScript's `s.substring(start, end)`: both bounds are clamped to
      [0, |s|] and swapped when start > end. */
  function JsSubstring(s: string, start: int, end: int): string
  {
    var a := Clamp(start, |s|);
    var b := Clamp(end, |s|);
    if a <= b then s[a..b] else s[b..a]
  }

  /** The text between the outer pair of delimiters: `substring(1, length - 1)`. */
  function Inner(s: string): string
  {
    JsSubstring(s, 1, |s| - 1)
  }

  /** Inner drops exactly one character at each end; a one-character input is
      kept whole (the bounds 1 and 0 are swapped) and "" stays "". */
  lemma InnerStripsDelimiters(s: string)
    ensures |s| >= 2 ==> Inner(s) == s[1..|s| - 1]
    ensures |s| == 1 ==> Inner(s) == s
    ensures |s| == 0 ==> Inner(s) == ""
  {
  }

  // ---------------------------------------------------------------------------
  // split('\n') and join('\n')

  /** `s.split('\n')`: always at least one piece, none containing a newline. */
  function Split(s: string): (lines: seq<string>)
    ensures |lines| >= 1
    ensures forall i :: 0 <= i < |lines| ==> '\n' !in lines[i]
  {
    if |s| == 0 then [""]
    else
      var rest := Split(s[1..]);
      if s[0] == '\n' then [""] + rest
      else [[s[0]] + rest[0]] + rest[1..]
  }

  /** `lines.join('\n')`; the empty list joins to "". */
  function Join(lines: seq<string>): string
  {
    if |lines| == 0 then ""
    else if |lines| == 1 then lines[0]
    else lines[0] + "\n" + Join(lines[1..])
  }

  predicate NoNewlines(lines: seq<string>)
  {
    forall i :: 0 <= i < |lines| ==> '\n' !in lines[i]
  }

  /** Joining the pieces of a split gives back the original text. */
  lemma {:induction false} JoinSplit(s: string)
    ensures Join(Split(s)) == s
  {
    if |s| == 0 {
    } else {
      var rest := Split(s[1..]);
      JoinSplit(s[1..]);
      if s[0] == '\n' {
        assert Split(s) == [""] + rest;
        assert Join(Split(s)) == "" + "\n" + Join(rest);
        assert [s[0]] + s[1..] == s;
      } else {
        var lines := [[s[0]] + rest[0]] + rest[1..];
        assert Split(s) == lines;
        if |rest| == 1 {
          assert Join(lines) == [s[0]] + rest[0];
          assert Join(rest) == rest[0];
        } else {
          assert lines[1..] == rest[1..];
          assert Join(lines) == [s[0]] + rest[0] + "\n" + Join(rest[1..]);
          assert Join(rest) == rest[0] + "\n" + Join(rest[1..]);
        }
        assert [s[0]] + s[1..] == s;
      }
    }
  }

  /** Splitting a join of newline-free lines gives back the lines. */
  lemma {:induction false} SplitJoin(lines: seq<string>)
    requires |lines| >= 1 && NoNewlines(lines)
    ensures Split(Join(lines)) == lines
    decreases |lines|, |lines[0]|
  {
    var head := lines[0];
    if |lines| == 1 {
      SplitLine(head);
    } else if |head| == 0 {
      var tail := lines[1..];
      SplitJoin(tail);
      var s := Join(lines);
      assert s == "\n" + Join(tail);
      assert s[1..] == Join(tail);
      assert [""] + tail == lines;
    } else {
      var lines' := [head[1..]] + lines[1..];
      assert NoNewlines(lines') by {
        assert forall c :: c in head[1..] ==> c in head;
      }
      SplitJoin(lines');
      var s := Join(lines);
      assert lines'[1..] == lines[1..];
      assert s == head + "\n" + Join(lines[1..]);
      assert Join(lines') == head[1..] + "\n" + Join(lines[1..]);
      assert s[1..] == Join(lines');
      assert s[0] == head[0] && head[0] != '\n';
      assert [head[0]] + head[1..] == head;
      assert [head] + lines[1..] == lines;
    }
  }

  /** A line without newlines splits into itself. */
  lemma {:induction false} SplitLine(line: string)
    requires '\n' !in line
    ensures Split(line) == [line]
  {
    if |line| > 0 {
      assert '\n' !in line[1..] by {
        assert forall c :: c in line[1..] ==> c in line;
      }
      SplitLine(line[1..]);
      assert [line[0]] + line[1..] == line;
    }
  }

  // ---------------------------------------------------------------------------
  // filterOutSolidityFileHeader

  /** A line the filter removes: a compiler pragma or an import directive. */
  predicate IsHeaderLine(line: string)
  {
    StartsWith(line, "pragma solidity") || StartsWith(line, "import")
  }

  /** The lines that are not header lines, in their original order. */
  function KeepLines(lines: seq<string>): seq<string>
  {
    if |lines| == 0 then []
    else if IsHeaderLine(lines[0]) then KeepLines(lines[1..])
    else [lines[0]] + KeepLines(lines[1..])
  }

  /** The filter keeps exactly the non-header lines, never adds one, and is the
      identity when there is nothing to drop. */
  lemma {:induction false} KeepLinesSpec(lines: seq<string>)
    ensures |KeepLines(lines)| <= |lines|
    ensures forall l :: l in KeepLines(lines) <==> l in lines && !IsHeaderLine(l)
    ensures (forall i :: 0 <= i < |lines| ==> !IsHeaderLine(lines[i])) ==> KeepLines(lines) == lines
  {
    if |lines| > 0 {
      KeepLinesSpec(lines[1..]);
      assert lines == [lines[0]] + lines[1..];
    }
  }

  /** The filter works line by line and keeps the order: filtering two blocks
      of lines one after the other is filtering their concatenation. */
  lemma {:induction false} KeepLinesAppend(a: seq<string>, b: seq<string>)
    ensures KeepLines(a + b) == KeepLines(a) + KeepLines(b)
  {
    if |a| > 0 {
      assert (a + b)[1..] == a[1..] + b;
      KeepLinesAppend(a[1..], b);
    } else {
      assert a + b == b;
    }
  }

  /** The filter keeps a line in place when it is kept: applying it twice is
      the same as once. */
  lemma {:induction false} KeepLinesIdempotent(lines: seq<string>)
    ensures KeepLines(KeepLines(lines)) == KeepLines(lines)
  {
    KeepLinesSpec(lines);
    var kept := KeepLines(lines);
    KeepLinesSpec(kept);
    forall i | 0 <= i < |kept| ensures !IsHeaderLine(kept[i]) {
      assert kept[i] in kept;
    }
  }

  /** `filterOutSolidityFileHeader`. */
  function FilterOutSolidityFileHeader(source: string): string
  {
    Join(KeepLines(Split(source)))
  }

  /** The output's lines are exactly the input's non-header lines, in order.
      When every line is a header line the output is "" (the empty list joins
      to ""). */
  lemma FilterOutputLines(source: string)
    ensures KeepLines(Split(source)) != [] ==>
      Split(FilterOutSolidityFileHeader(source)) == KeepLines(Split(source))
    ensures KeepLines(Split(source)) == [] ==> FilterOutSolidityFileHeader(source) == ""
  {
    var kept := KeepLines(Split(source));
    KeepLinesSpec(Split(source));
    if kept != [] {
      assert NoNewlines(kept) by {
        forall i | 0 <= i < |kept| ensures '\n' !in kept[i] {
          assert kept[i] in kept;
        }
      }
      SplitJoin(kept);
    }
  }

  /** A file without pragma or import lines passes the filter unchanged. */
  lemma FilterIdentity(source: string)
    requires forall l :: l in Split(source) ==> !IsHeaderLine(l)
    ensures FilterOutSolidityFileHeader(source) == source
  {
    var lines := Split(source);
    KeepLinesSpec(lines);
    assert forall i :: 0 <= i < |lines| ==> lines[i] in lines;
    JoinSplit(source);
  }

  /** Filtering twice is filtering once. */
  lemma FilterIdempotent(source: string)
    ensures FilterOutSolidityFileHeader(FilterOutSolidityFileHeader(source))
         == FilterOutSolidityFileHeader(source)
  {
    var once := FilterOutSolidityFileHeader(source);
    var kept := KeepLines(Split(source));
    FilterOutputLines(source);
    if kept != [] {
      KeepLinesIdempotent(Split(source));
    } else {
      assert Split(once) == [""];
      assert !StartsWith("", "import");
      assert !StartsWith("", "pragma solidity");
      assert KeepLines([""]) == [""];
    }
  }

  // ---------------------------------------------------------------------------
  // parseSourceCode

  /** What the reduce callback appends for the entry at index i. */
  function Piece(i: nat, content: string): string
  {
    if i == 0 then content else FilterOutSolidityFileHeader(content)
  }

  /** The fold over the entries, starting from "" and appending "\n" and the
      entry's piece at each step, from the left. */
  function Flatten(files: seq<SourceFile>): string
  {
    if |files| == 0 then ""
    else
      var last := |files| - 1;
      Flatten(files[..last]) + "\n" + Piece(last, files[last].content)
  }

  /** `parseSourceCode`: flatten a decodable bundle, otherwise keep the input. */
  function ParseSourceCode(sourceCode: string, decode: Decoder): string
  {
    match decode(Inner(sourceCode))
    case None => sourceCode
    case Some(files) => Flatten(files)
  }

  /** The documented shape of a flattened bundle, read from the front:
      "\n" + first file verbatim, then "\n" + filtered content for each other. */
  function Bundle(files: seq<SourceFile>): string
  {
    if |files| == 0 then "" else "\n" + files[0].content + FilteredTail(files[1..])
  }

  function FilteredTail(files: seq<SourceFile>): string
  {
    if |files| == 0 then ""
    else "\n" + FilterOutSolidityFileHeader(files[0].content) + FilteredTail(files[1..])
  }

  lemma {:induction false} FilteredTailSnoc(files: seq<SourceFile>, f: SourceFile)
    ensures FilteredTail(files + [f]) == FilteredTail(files) + "\n" + FilterOutSolidityFileHeader(f.content)
    decreases |files|
  {
    if |files| == 0 {
      assert files + [f] == [f];
      assert [f][1..] == [];
    } else {
      assert (files + [f])[1..] == files[1..] + [f];
      FilteredTailSnoc(files[1..], f);
    }
  }

  /** The fold computes the documented shape. */
  lemma {:induction false} FlattenIsBundle(files: seq<SourceFile>)
    ensures Flatten(files) == Bundle(files)
    decreases |files|
  {
    if |files| == 1 {
      assert Flatten(files[..0]) == "";
    } else if |files| > 1 {
      var last := |files| - 1;
      var init := files[..last];
      var piece := Piece(last, files[last].content);
      assert init[1..] + [files[last]] == files[1..];
      calc {
        Flatten(files);
        Flatten(init) + "\n" + piece;
        { FlattenIsBundle(init); assert init[0] == files[0]; }
        "\n" + files[0].content + FilteredTail(init[1..]) + "\n" + piece;
        { FilteredTailSnoc(init[1..], files[last]); }
        "\n" + files[0].content + FilteredTail(files[1..]);
      }
    }
  }

  /** A text that does not decode to a bundle comes back unchanged. */
  lemma ParseFallsBack(sourceCode: string, decode: Decoder)
    ensures decode(Inner(sourceCode)).None? ==> ParseSourceCode(sourceCode, decode) == sourceCode
  {
  }

  /** A decoded bundle is flattened: "" for no files, otherwise a text that
      starts with "\n" followed by the first file verbatim, and is exactly the
      documented shape. */
  lemma ParseFlattensBundle(sourceCode: string, decode: Decoder)
    ensures decode(Inner(sourceCode)).Some? ==>
      var files := decode(Inner(sourceCode)).value;
      var r := ParseSourceCode(sourceCode, decode);
      && r == Bundle(files)
      && (files == [] ==> r == "")
      && (files != [] ==> |r| >= 1 + |files[0].content| && r[..1 + |files[0].content|] == "\n" + files[0].content)
  {
    if decode(Inner(sourceCode)).Some? {
      var files := decode(Inner(sourceCode)).value;
      FlattenIsBundle(files);
      if files != [] {
        var r := Bundle(files);
        assert r == ("\n" + files[0].content) + FilteredTail(files[1..]);
      }
    }
  }

  /** A two-file bundle whose second file opens with one header line: the
      first file is kept verbatim (a pragma line in it stays, since it comes
      first) and the second loses its header line. */
  lemma TwoFileBundle(sourceCode: string, decode: Decoder, first: SourceFile, second: SourceFile,
                      header: string, body: string)
    requires second.content == header + "\n" + body
    requires '\n' !in header && '\n' !in body
    requires IsHeaderLine(header) && !IsHeaderLine(body)
    ensures decode(Inner(sourceCode)) == Some([first, second]) ==>
      ParseSourceCode(sourceCode, decode) == "\n" + first.content + "\n" + body
  {
    var files := [first, second];
    FlattenIsBundle(files);
    assert files[1..] == [second];
    assert [second][1..] == [];
    HeaderLineDropped(header, body);
    calc {
      Bundle(files);
      "\n" + first.content + FilteredTail([second]);
      "\n" + first.content + ("\n" + FilterOutSolidityFileHeader(second.content) + FilteredTail([]));
      "\n" + first.content + ("\n" + body);
    }
  }

  lemma HeaderLineDropped(header: string, body: string)
    requires '\n' !in header && '\n' !in body
    requires IsHeaderLine(header) && !IsHeaderLine(body)
    ensures FilterOutSolidityFileHeader(header + "\n" + body) == body
  {
    var lines := [header, body];
    assert Join(lines) == header + "\n" + body;
    SplitJoin(lines);
    assert lines[1..] == [body];
    assert [body][1..] == [];
    assert KeepLines([body]) == [body] + KeepLines([]);
    assert KeepLines(lines) == KeepLines([body]);
    assert Join([body]) == body;
  }
}
