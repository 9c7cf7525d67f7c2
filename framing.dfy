/**
  Line framing and tokenising of the text protocol (Player::onTcpMessage).
  The standard-library calls the source relies on are modelled exactly:
  basic_string::rfind, basic_string::substr(pos, len) and
  std::getline(stream, token, ' ').  The quirks of the source are kept:
  substr is given the index of the last newline as a LENGTH, and the
  trimmed buffer keeps that newline, so an extracted line may start (and
  even end) with '\n'.
*/
module Framing {
  import opened Wrappers

  const Newline: char := '\n'
  const Space: char := ' '

  /** std::string::npos on a 64-bit target. */
  const NPos: nat := 0xFFFF_FFFF_FFFF_FFFF

  /** `n - 1` in size_type arithmetic, which wraps to npos at zero. */
  function SizeMinusOne(n: nat): (r: nat)
    ensures n <= NPos ==> r == (n - 1) % (NPos + 1)
  {
    if n == 0 then NPos else n - 1
  }

  /** The last index below n that holds c. */
  function LastBelow(s: string, c: char, n: nat): (r: Option<nat>)
    requires n <= |s|
    ensures r.Some? ==> r.value < n && s[r.value] == c
    ensures r.Some? ==> forall k :: r.value < k < n ==> s[k] != c
    ensures r.None? <==> forall k :: 0 <= k < n ==> s[k] != c
  {
    if n == 0 then None
    else if s[n - 1] == c then Some(n - 1)
    else LastBelow(s, c, n - 1)
  }

  /**
    How far basic_string::rfind(c, pos) searches: up to and including pos,
    or the whole string when pos is npos or at or beyond the end.
  */
  function SearchEnd(s: string, pos: nat): (n: nat)
    ensures n <= |s|
  {
    if pos == NPos || pos >= |s| then |s| else pos + 1
  }

  /** basic_string::rfind(c, pos): the last index not past pos that holds c. */
  function RFind(s: string, c: char, pos: nat): (r: Option<nat>)
    ensures r.Some? ==> r.value < SearchEnd(s, pos) && s[r.value] == c
    ensures r.Some? ==> forall k :: r.value < k < SearchEnd(s, pos) ==> s[k] != c
    ensures r.None? <==> forall k :: 0 <= k < SearchEnd(s, pos) ==> s[k] != c
  {
    LastBelow(s, c, SearchEnd(s, pos))
  }

  /** basic_string::substr(pos, len): at most len characters starting at pos. */
  function Substr(s: string, pos: nat, len: nat): (r: string)
    requires pos <= |s|
    ensures |r| == if len < |s| - pos then len else |s| - pos
    ensures r == s[pos..pos + |r|]
  {
    if len < |s| - pos then s[pos..pos + len] else s[pos..]
  }

  /** The first index that holds c. */
  function IndexOf(s: string, c: char): (r: Option<nat>)
    ensures r.Some? ==> r.value < |s| && s[r.value] == c && forall k :: 0 <= k < r.value ==> s[k] != c
    ensures r.None? <==> forall k :: 0 <= k < |s| ==> s[k] != c
  {
    if s == [] then None
    else if s[0] == c then Some(0)
    else match IndexOf(s[1..], c)
      case None => None
      case Some(i) => Some(i + 1)
  }

  /** The first index holding c is n when no earlier one does and s[n] does. */
  lemma {:induction false} IndexOfIs(s: string, c: char, n: nat)
    requires n <= |s| && forall k :: 0 <= k < n ==> s[k] != c
    requires n < |s| ==> s[n] == c
    ensures IndexOf(s, c) == if n < |s| then Some(n) else None
  {
    if s != [] && n > 0 {
      assert forall k :: 0 <= k < n - 1 ==> s[1..][k] == s[k + 1];
      IndexOfIs(s[1..], c, n - 1);
    }
  }

  /**
    The tokens successive calls of std::getline(stream, token, ' ') yield
    from a stream over s: each call takes the characters up to the next
    space and consumes that space; a call at the end of the stream fails,
    so a trailing space ends the sequence without an empty last token.
  */
  function Tokens(s: string): (r: seq<string>)
    ensures s == [] <==> r == []
    decreases |s|
  {
    if s == [] then []
    else match IndexOf(s, Space)
      case None => [s]
      case Some(i) => [s[..i]] + Tokens(s[i + 1..])
  }

  /** No token holds a space. */
  lemma {:induction false} TokensHaveNoSpace(s: string)
    ensures forall i :: 0 <= i < |Tokens(s)| ==> Space !in Tokens(s)[i]
    decreases |s|
  {
    if s != [] {
      match IndexOf(s, Space)
      case None =>
      case Some(i) =>
        TokensHaveNoSpace(s[i + 1..]);
        TokensAtSpace(s, i);
    }
  }

  /** The tokens joined back with single spaces. */
  function JoinSpaces(ts: seq<string>): string {
    if ts == [] then []
    else if |ts| == 1 then ts[0]
    else ts[0] + [Space] + JoinSpaces(ts[1..])
  }

  /** The text without the single trailing space getline consumes silently, if there is one. */
  function WithoutTrailingSpace(s: string): (r: string)
    ensures |r| == if s != [] && s[|s| - 1] == Space then |s| - 1 else |s|
  {
    if s != [] && s[|s| - 1] == Space then s[..|s| - 1] else s
  }

  /**
    Tokenising loses nothing: joining the tokens with spaces gives the line
    back, except for the single trailing space getline consumes silently.
  */
  lemma {:induction false} TokensRoundTrip(s: string)
    ensures JoinSpaces(Tokens(s)) == WithoutTrailingSpace(s)
    decreases |s|
  {
    if s != [] {
      match IndexOf(s, Space)
      case None =>
        assert s[|s| - 1] != Space;
      case Some(i) =>
        var word, rest := s[..i], s[i + 1..];
        assert s == word + [Space] + rest;
        TokensAtSpace(s, i);
        if rest == [] {
          assert Tokens(s) == [word];
          assert s[..|s| - 1] == word;
        } else {
          TokensRoundTrip(rest);
          JoinFront(word, Tokens(rest));
          TrimAfterWord(word, rest);
        }
    }
  }

  /** A trailing space after a word and a space belongs to the text that follows them. */
  lemma TrimAfterWord(word: string, rest: string)
    requires rest != []
    ensures WithoutTrailingSpace(word + [Space] + rest) == word + [Space] + WithoutTrailingSpace(rest)
  {
    var s := word + [Space] + rest;
    assert s[|s| - 1] == rest[|rest| - 1];
    if rest[|rest| - 1] == Space {
      assert s[..|s| - 1] == word + [Space] + rest[..|rest| - 1];
    }
  }

  /** Joining a word in front of a non-empty token list puts one space between. */
  lemma JoinFront(word: string, ts: seq<string>)
    requires ts != []
    ensures JoinSpaces([word] + ts) == word + [Space] + JoinSpaces(ts)
  {
    assert ([word] + ts)[1..] == ts;
  }

  /** The single-slot mailbox: a command name and its arguments. */
  datatype Mail = Mail(command: string, arguments: seq<string>)

  /**
    The body of the getline loop of onTcpMessage, applied to the remaining
    tokens: while no command is known the token becomes the command (an
    empty token leaves it unknown), afterwards every token is an argument.
  */
  function Absorb(m: Mail, tokens: seq<string>): Mail
    decreases |tokens|
  {
    if tokens == [] then m
    else
      var next := if m.command == [] then m.(command := tokens[0])
                  else m.(arguments := m.arguments + [tokens[0]]);
      Absorb(next, tokens[1..])
  }

  /** The index of the first non-empty token. */
  function FirstNonEmpty(ts: seq<string>): (r: Option<nat>)
    ensures r.Some? ==> r.value < |ts| && ts[r.value] != [] &&
                        forall j :: 0 <= j < r.value ==> ts[j] == []
    ensures r.None? ==> forall j :: 0 <= j < |ts| ==> ts[j] == []
  {
    if ts == [] then None
    else if ts[0] != [] then Some(0)
    else match FirstNonEmpty(ts[1..])
      case None => None
      case Some(k) => Some(k + 1)
  }

  /** Once a command is known, every further token is appended as an argument. */
  lemma {:induction false} AbsorbArguments(m: Mail, ts: seq<string>)
    requires m.command != []
    ensures Absorb(m, ts) == m.(arguments := m.arguments + ts)
    decreases |ts|
  {
    if ts != [] {
      AbsorbArguments(m.(arguments := m.arguments + [ts[0]]), ts[1..]);
      assert m.arguments + [ts[0]] + ts[1..] == m.arguments + ts;
    }
  }

  /**
    The command is the first non-empty token and the arguments are all the
    tokens after it, in order; the empty tokens before it are dropped.
  */
  lemma {:induction false} AbsorbFirstWord(args: seq<string>, ts: seq<string>)
    ensures Absorb(Mail([], args), ts) ==
      match FirstNonEmpty(ts)
      case None => Mail([], args)
      case Some(k) => Mail(ts[k], args + ts[k + 1..])
    decreases |ts|
  {
    if ts != [] {
      if ts[0] != [] {
        AbsorbArguments(Mail(ts[0], args), ts[1..]);
      } else {
        AbsorbFirstWord(args, ts[1..]);
        match FirstNonEmpty(ts[1..])
        case None =>
        case Some(k) => assert ts[1..][k + 1..] == ts[k + 2..];
      }
    }
  }

  /**
    The mailbox entry onTcpMessage stores for an extracted line: the first
    non-empty token as the command and the later tokens as the arguments,
    but the whole line as the command when no argument was found.
  */
  function ParseLine(line: string): (m: Mail)
    ensures var ts := Tokens(line);
      match FirstNonEmpty(ts)
      case Some(k) =>
        if k + 1 < |ts| then m == Mail(ts[k], ts[k + 1..]) else m == Mail(line, [])
      case None => m == Mail(line, [])
  {
    AbsorbFirstWord([], Tokens(line));
    var m := Absorb(Mail([], []), Tokens(line));
    if m.arguments == [] then Mail(line, []) else m
  }

  /**
    The tokenising loop of onTcpMessage: each token getline yields is
    absorbed into the command or the argument list, and a line that gave
    no argument becomes the command as a whole.  The string stream is
    modelled by the part of the line not read yet.
  */
  method Tokenize(line: string) returns (m: Mail)
    ensures m == ParseLine(line)
  {
    var command: string := [];
    var arguments: seq<string> := [];
    var stream := line;
    while stream != []
      invariant Absorb(Mail(command, arguments), Tokens(stream)) == Absorb(Mail([], []), Tokens(line))
      decreases |stream|
    {
      var argument, rest := GetLine(stream);
      assert ([argument] + Tokens(rest))[1..] == Tokens(rest);
      if command == [] {
        command := argument;
      } else {
        arguments := arguments + [argument];
      }
      stream := rest;
    }
    if arguments == [] {
      command := line;
    }
    m := Mail(command, arguments);
  }

  /**
    std::getline(stream, token, ' ') on a stream that is not at its end:
    the characters up to the next space or the end, and what is left to
    read after the space that ended them.
  */
  method GetLine(stream: string) returns (token: string, rest: string)
    requires stream != []
    ensures |rest| < |stream|
    ensures Space !in token
    ensures Tokens(stream) == [token] + Tokens(rest)
  {
    token := [];
    var j := 0;
    while j < |stream| && stream[j] != Space
      invariant 0 <= j <= |stream|
      invariant token == stream[..j]
      invariant forall k :: 0 <= k < j ==> stream[k] != Space
    {
      token := token + [stream[j]];
      j := j + 1;
    }
    rest := if j < |stream| then stream[j + 1..] else [];
    TokenStep(stream, j);
  }

  /** Unfolding Tokens at the first space. */
  lemma TokensAtSpace(s: string, n: nat)
    requires IndexOf(s, Space) == Some(n)
    ensures Tokens(s) == [s[..n]] + Tokens(s[n + 1..])
  {
  }

  /** One getline call: the token before the first space at n (or the end), then the rest. */
  lemma TokenStep(s: string, n: nat)
    requires s != [] && n <= |s| && forall k :: 0 <= k < n ==> s[k] != Space
    requires n < |s| ==> s[n] == Space
    ensures Tokens(s) == [s[..n]] + Tokens(if n < |s| then s[n + 1..] else [])
  {
    IndexOfIs(s, Space, n);
    if n < |s| {
      TokensAtSpace(s, n);
    } else {
      assert s[..n] == s;
    }
  }

  /** What onTcpMessage takes from the buffer: the line for the mailbox and the new buffer. */
  datatype Framed = Framed(line: string, rest: string)

  /**
    The framing step of onTcpMessage on the buffer after the chunk was
    appended.  Nothing is taken while the buffer holds no newline.
    Otherwise, with `last` the last newline and `prev` the one before it
    (0 when there is none), the line is substr(prev, last), and the buffer
    is cleared when it ends in that newline, or else keeps the suffix
    starting at it.
  */
  function Frame(buffer: string): (r: Option<Framed>)
    ensures r.None? <==> Newline !in buffer
    ensures r.Some? ==> (r.value.rest == [] <==> buffer[|buffer| - 1] == Newline)
    ensures r.Some? ==> |r.value.rest| <= |buffer|
    ensures r.Some? && r.value.rest != [] ==>
      r.value.rest[0] == Newline && Newline !in r.value.rest[1..] &&
      r.value.rest == buffer[|buffer| - |r.value.rest|..]
  {
    var last := RFind(buffer, Newline, NPos);
    if last.None? then None
    else
      var lastNewline := last.value;
      var prev := RFind(buffer, Newline, SizeMinusOne(lastNewline));
      var prevNewline := if prev.None? then 0 else prev.value;
      var line := Substr(buffer, prevNewline, lastNewline);
      var rest := if lastNewline == |buffer| - 1 then [] else buffer[lastNewline..];
      assert rest != [] ==> forall k :: 1 <= k < |rest| ==> rest[k] == buffer[lastNewline + k];
      Some(Framed(line, rest))
  }

  /** The index of the last newline of a buffer that holds one. */
  function LastNewline(buffer: string): (k: nat)
    requires Newline in buffer
    ensures k < |buffer| && buffer[k] == Newline
    ensures forall j :: k < j < |buffer| ==> buffer[j] != Newline
  {
    RFind(buffer, Newline, NPos).value
  }

  /**
    The line is the text before the last newline when no newline precedes
    it; otherwise the line starts with the newline before it, and when that
    one is not at index 0 the line also holds the last newline.
  */
  lemma FrameLine(buffer: string)
    requires Newline in buffer && |buffer| < NPos
    ensures var k := LastNewline(buffer); var line := Frame(buffer).value.line;
      ((forall j :: 0 <= j < k ==> buffer[j] != Newline) ==> line == buffer[..k]) &&
      ((exists j :: 0 <= j < k && buffer[j] == Newline) ==> line != [] && line[0] == Newline) &&
      ((exists j :: 0 < j < k && buffer[j] == Newline) ==> Newline in line[1..])
  {
    var k := LastNewline(buffer);
    var prev := RFind(buffer, Newline, SizeMinusOne(k));
    var line := Frame(buffer).value.line;
    if k > 0 && prev.Some? {
      var p := prev.value;
      assert p < k && buffer[p] == Newline;
      assert line == Substr(buffer, p, k);
      if p > 0 {
        assert line[k - p] == buffer[k];
        assert line[1..][k - p - 1] == Newline;
      }
    }
  }

  /**
    The well-formed case: a newline-terminated line alone in the buffer is
    taken whole and the buffer is emptied.
  */
  lemma SingleLineFramed(w: string)
    requires Newline !in w && |w| < NPos
    ensures Frame(w + [Newline]) == Some(Framed(w, []))
  {
    var b := w + [Newline];
    assert forall j :: 0 <= j < |w| ==> b[j] == w[j];
    assert RFind(b, Newline, NPos) == Some(|w|);
    assert RFind(b, Newline, SizeMinusOne(|w|)) == if w == [] then Some(0) else None;
    assert Substr(b, 0, |w|) == w;
  }

  /** A line without spaces becomes the command, with no arguments. */
  lemma WordIsCommand(w: string)
    requires w != [] && Space !in w
    ensures ParseLine(w) == Mail(w, [])
  {
    assert Tokens(w) == [w];
  }

  /**
    A line split across two reads reaches the mailbox with the newline that
    was kept in the buffer in front of it, so the command is not recognised:
    "FORWARD\nFIR" followed by "E\n" stores the command "\nFIRE".
  */
  lemma SplitReadKeepsNewline()
    ensures var first := Frame("FORWARD\nFIR");
      first.Some? && first.value.line == "FORWARD" && first.value.rest == "\nFIR" &&
      var second := Frame(first.value.rest + "E\n");
      second.Some? && second.value.line == "\nFIRE" && second.value.rest == []
  {
    var b1 := "FORWARD\nFIR";
    assert b1[7] == Newline && b1[8] != Newline && b1[9] != Newline && b1[10] != Newline;
    assert RFind(b1, Newline, NPos) == Some(7);
    assert forall j :: 0 <= j < 7 ==> b1[j] != Newline;
    assert RFind(b1, Newline, 6) == None;
    assert Substr(b1, 0, 7) == "FORWARD";
    var b2 := "\nFIRE\n";
    assert b2 == b1[7..] + "E\n";
    assert RFind(b2, Newline, NPos) == Some(5);
    assert b2[0] == Newline && b2[1] != Newline && b2[2] != Newline && b2[3] != Newline && b2[4] != Newline;
    assert RFind(b2, Newline, 4) == Some(0);
    assert Substr(b2, 0, 5) == "\nFIRE";
  }
}
