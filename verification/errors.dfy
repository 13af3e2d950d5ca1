/** `Squelch::Error` (lib/squelch/error.rb): what a failed obfuscation
    reports. */
module Errors {
  import opened Chars

  /** The original input, the string the marker search ran on (the
      substituted output), and the text of the leftover marker found in it. */
  datatype Error = Error(sql: string, obfuscation: string, delimiter: string)

  const MessageHead: string := "Failed to squelch SQL, delimiter "
  const MessageTail: string := " remained after obfuscation"

  /** The exception message. The heredoc's trailing newline is removed by
      `strip`; nothing else in the text is whitespace at either end. */
  function Message(e: Error): string {
    MessageHead + e.delimiter + MessageTail
  }

  /** Reads the delimiter back out of a message, if it has the message's shape. */
  function DelimiterOf(m: string): (r: Option<string>)
    ensures r.Some? ==> m == MessageHead + r.value + MessageTail
  {
    if |m| >= |MessageHead| + |MessageTail|
       && m[..|MessageHead|] == MessageHead
       && m[|m| - |MessageTail|..] == MessageTail
    then
      var d := m[|MessageHead|..|m| - |MessageTail|];
      assert m == m[..|MessageHead|] + d + m[|m| - |MessageTail|..];
      Some(d)
    else None
  }

  /** The message names the delimiter, and exactly it. */
  lemma MessageNamesDelimiter(e: Error)
    ensures DelimiterOf(Message(e)) == Some(e.delimiter)
  {
    var m := Message(e);
    assert m[..|MessageHead|] == MessageHead;
    assert m[|m| - |MessageTail|..] == MessageTail;
    assert m[|MessageHead|..|m| - |MessageTail|] == e.delimiter;
  }
}
