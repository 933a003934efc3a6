/** The archive files the scripts read: a name and the decoded text, which
    is split into lines with the first (header) line dropped. */
module Archive {
  import opened Text

  datatype ZipFile = ZipFile(name: string, content: string)

  /** `filename.endsWith(".csv")`. */
  predicate IsCsv(f: ZipFile) {
    EndsWith(f.name, ".csv")
  }

  /** `content.split("\n").slice(1)`. */
  function DataLines(content: string): (lines: seq<string>)
    ensures |lines| == |Split(content, '\n')| - 1
  {
    Split(content, '\n')[1..]
  }

  /** Everything after the first line break, line by line. */
  lemma DataLinesAfterHeader(header: string, body: string)
    requires '\n' !in header
    ensures DataLines(header + "\n" + body) == Split(body, '\n')
  {
    SplitAfter(header, '\n', body);
    assert header + "\n" + body == header + ['\n'] + body;
  }
}
