/**
 * Line-level text handling shared by the readers of ljdump.py: Python's
 * `readline`, the `if s[-1] == '\n': s = s[:-1]` idiom, and the newline
 * translation of a file opened in text mode.
 */
module Text {

  /** Drops one trailing newline, if there is one. */
  function Chomp(s: string): string
  {
    if s != [] && s[|s| - 1] == '\n' then s[..|s| - 1] else s
  }

  /**
   * `readline` on the text `s`: the first line, with its newline when it has
   * one, and the text left after it. At the end of the text it reads "".
   */
  function ReadLine(s: string): (r: (string, string))
    ensures r.0 + r.1 == s
    ensures r.0 == [] <==> s == []
    ensures forall i :: 0 <= i < |r.0| - 1 ==> r.0[i] != '\n'
    ensures r.1 != [] ==> r.0[|r.0| - 1] == '\n'
  {
    if s == [] then ("", "")
    else if s[0] == '\n' then ("\n", s[1..])
    else
      var rest := ReadLine(s[1..]);
      ([s[0]] + rest.0, rest.1)
  }

  /** A line with no newline in it, followed by a newline, reads back whole. */
  lemma {:induction false} ReadLineOfLine(line: string, rest: string)
    requires '\n' !in line
    ensures ReadLine(line + "\n" + rest) == (line + "\n", rest)
  {
    var s := line + "\n" + rest;
    if line == [] {
      assert s[0] == '\n' && s[1..] == rest;
    } else {
      assert s[0] == line[0] && line[0] != '\n';
      assert s[1..] == line[1..] + "\n" + rest;
      ReadLineOfLine(line[1..], rest);
      assert [line[0]] + (line[1..] + "\n") == line + "\n";
    }
  }

  /**
   * Universal-newline translation done when a file is read in text mode:
   * "\r\n" and a lone "\r" both read as "\n".
   */
  function UniversalNewlines(s: string): (r: string)
    ensures '\r' !in r
    ensures |r| <= |s|
  {
    if s == [] then []
    else if s[0] == '\r' then
      if |s| > 1 && s[1] == '\n' then "\n" + UniversalNewlines(s[2..])
      else "\n" + UniversalNewlines(s[1..])
    else [s[0]] + UniversalNewlines(s[1..])
  }

  /** Text without a carriage return is read exactly as it was written. */
  lemma {:induction false} UniversalNewlinesKeepsPlainText(s: string)
    requires '\r' !in s
    ensures UniversalNewlines(s) == s
  {
    if s != [] {
      assert '\r' !in s[1..] by {
        forall i | 0 <= i < |s[1..]| ensures s[1..][i] != '\r' {
          assert s[1..][i] == s[i + 1];
        }
      }
      UniversalNewlinesKeepsPlainText(s[1..]);
    }
  }
}
