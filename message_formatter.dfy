/**
  The fixed message layouts the server sends: each one is a fixed sequence of
  pieces (an ANSI color code, the user name, a fixed phrase, the text, the
  reset code) finished by a newline.
 */
module MessageFormatter {

  /** The ASCII escape character, written `\033` in the ANSI codes below. */
  const Esc: char := '\U{1B}'

  const ColorLeave: string := [Esc] + "[31m"    // red
  const ColorJoin: string := [Esc] + "[32m"     // green
  const ColorWhisper: string := [Esc] + "[33m"  // yellow
  const ColorServer: string := [Esc] + "[1;37m" // bold white
  const ColorEscape: string := [Esc] + "[m"     // back to the terminal's default

  /** True of a frame whose last character is a newline. */
  predicate EndsWithNewline(s: string)
  {
    s != [] && s[|s| - 1] == '\n'
  }

  /** A chat line, `[userName]: message` and a newline. */
  function GlobalMessage(userName: string, message: string): (r: string)
    ensures EndsWithNewline(r)
    ensures GlobalText(userName, r) == message
  {
    "[" + userName + "]: " + message + "\n"
  }

  /** A line from the server operator, `[SERVER]: message` in bold white. */
  function ServerMessage(message: string): (r: string)
    ensures EndsWithNewline(r)
    ensures ServerText(r) == message
  {
    ColorServer + "[SERVER]: " + message + ColorEscape + "\n"
  }

  /** `userName has joined the chat`, in green. */
  function JoinMessage(userName: string): (r: string)
    ensures EndsWithNewline(r)
    ensures JoinedName(r) == userName
  {
    ColorJoin + userName + " has joined the chat" + ColorEscape + "\n"
  }

  /** `userName has left the chat`, in red. */
  function LeaveMessage(userName: string): (r: string)
    ensures EndsWithNewline(r)
    ensures LeftName(r) == userName
  {
    ColorLeave + userName + " has left the chat" + ColorEscape + "\n"
  }

  /** `userName has whispered: message`, in yellow. */
  function WhisperMessage(userName: string, message: string): (r: string)
    ensures EndsWithNewline(r)
    ensures WhisperText(userName, r) == message
  {
    ColorWhisper + userName + " has whispered: " + message + ColorEscape + "\n"
  }

  /** The message part of a chat line from `userName`: what lies between the fixed prefix and the newline. */
  function GlobalText(userName: string, line: string): string
  {
    var pre := |"["| + |userName| + |"]: "|;
    if |line| < pre + 1 then "" else line[pre .. |line| - 1]
  }

  /** The message part of a server line. */
  function ServerText(line: string): string
  {
    var pre := |ColorServer| + |"[SERVER]: "|;
    var post := |ColorEscape| + 1;
    if |line| < pre + post then "" else line[pre .. |line| - post]
  }

  /** The message part of a whisper from `userName`. */
  function WhisperText(userName: string, line: string): string
  {
    var pre := |ColorWhisper| + |userName| + |" has whispered: "|;
    var post := |ColorEscape| + 1;
    if |line| < pre + post then "" else line[pre .. |line| - post]
  }

  /** The user name in a join notice. */
  function JoinedName(line: string): string
  {
    var pre := |ColorJoin|;
    var post := |" has joined the chat"| + |ColorEscape| + 1;
    if |line| < pre + post then "" else line[pre .. |line| - post]
  }

  /** The user name in a leave notice. */
  function LeftName(line: string): string
  {
    var pre := |ColorLeave|;
    var post := |" has left the chat"| + |ColorEscape| + 1;
    if |line| < pre + post then "" else line[pre .. |line| - post]
  }

  /** For one sender, different messages give different chat lines. */
  lemma GlobalMessageInjective(userName: string, m1: string, m2: string)
    requires GlobalMessage(userName, m1) == GlobalMessage(userName, m2)
    ensures m1 == m2
  {
    assert GlobalText(userName, GlobalMessage(userName, m1)) == m1;
  }

  /** For one sender, different messages give different whispers. */
  lemma WhisperMessageInjective(userName: string, m1: string, m2: string)
    requires WhisperMessage(userName, m1) == WhisperMessage(userName, m2)
    ensures m1 == m2
  {
    assert WhisperText(userName, WhisperMessage(userName, m1)) == m1;
  }

  /** A join notice is never a leave notice: the color codes differ. */
  lemma JoinIsNotLeave(u: string, v: string)
    ensures JoinMessage(u) != LeaveMessage(v)
  {
    assert JoinMessage(u)[3] == '2' && LeaveMessage(v)[3] == '1';
  }
}
