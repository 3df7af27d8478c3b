/**
 The line-oriented feed parser: splitting into lines, cutting comments, trimming, and extracting tokens.
 The extraction from one cleaned line is a parameter, and so is what counts as white space.
 */
module Lines {
  import opened Arithmetic
  import opened Bytes

  const LF: Byte := 10
  const CR: Byte := 13
  const HASH: Byte := 35
  const SLASH: Byte := 47
  const SEMICOLON: Byte := 59

  type Text = seq<Byte>

  /** First position of `b`, or the length. */
  function Find(s: Text, b: Byte): (i: nat)
    ensures i <= |s| && (i < |s| ==> s[i] == b) && forall j :: 0 <= j < i ==> s[j] != b
  {
    if s == [] || s[0] == b then 0 else
      var i := Find(s[1..], b) + 1;
      assert forall j :: 0 < j < i ==> s[j] == s[1..][j - 1];
      i
  }

  /** First position of two slashes, or the length. */
  function FindSlashes(s: Text): (i: nat)
    ensures i <= |s|
    ensures i < |s| ==> i + 1 < |s| && s[i] == SLASH && s[i + 1] == SLASH
    ensures forall j :: 0 <= j < i && j + 1 < |s| ==> !(s[j] == SLASH && s[j + 1] == SLASH)
  {
    if |s| < 2 then |s|
    else if s[0] == SLASH && s[1] == SLASH then 0
    else
      var i := FindSlashes(s[1..]) + 1;
      assert forall j :: 0 < j < |s| ==> s[j] == s[1..][j - 1];
      i
  }

  /** A comment starts at `i`. */
  predicate MarkerAt(s: Text, i: nat)
    requires i < |s|
  {
    s[i] == HASH || s[i] == SEMICOLON || (i + 1 < |s| && s[i] == SLASH && s[i + 1] == SLASH)
  }

  /** Cuts the line at the first comment marker. */
  function StripComment(line: Text): (r: Text)
    ensures r <= line
    ensures forall i :: 0 <= i < |r| ==> !MarkerAt(line, i)
    ensures |r| < |line| ==> MarkerAt(line, |r|)
  {
    var cut := Least(Least(Least(|line|, Find(line, HASH)), Find(line, SEMICOLON)), FindSlashes(line));
    line[..cut]
  }

  predicate MarkerFree(s: Text) {
    forall i :: 0 <= i < |s| ==> !MarkerAt(s, i)
  }

  /** The cut line is marker free, and it is the longest marker-free prefix except when the cut is at two
      slashes: there one more character, a lone slash, would still be marker free. */
  lemma {:induction false} StripIsLongest(line: Text, n: nat)
    requires n <= |line|
    ensures MarkerFree(StripComment(line))
    ensures MarkerFree(line[..n]) <==>
            || n <= |StripComment(line)|
            || (n == |StripComment(line)| + 1 && line[n - 1] == SLASH)
  {
    var r := StripComment(line);
    if n > |r| {
      var c := |r|;
      assert MarkerAt(line, c);
      if line[c] != SLASH {
        assert MarkerAt(line[..n], c);
      } else if n > c + 1 {
        assert MarkerAt(line[..n], c);
      } else {
        assert forall i :: 0 <= i < c ==> !MarkerAt(line, i);
      }
    }
  }

  /** The first comment of the line starts with two slashes. */
  predicate SlashesFirst(line: Text) {
    FindSlashes(line) < Find(line, HASH) && FindSlashes(line) < Find(line, SEMICOLON)
  }

  /** The cut line is the longest marker-free prefix exactly when its first comment, if any, does not start
      with two slashes. */
  lemma {:induction false} CutIsLongestIff(line: Text)
    ensures (forall n :: |StripComment(line)| < n <= |line| ==> !MarkerFree(line[..n])) <==> !SlashesFirst(line)
  {
    var c := |StripComment(line)|;
    if SlashesFirst(line) {
      StripIsLongest(line, c + 1);
      assert MarkerFree(line[..c + 1]);
    } else {
      forall n | c < n <= |line|
        ensures !MarkerFree(line[..n])
      {
        StripIsLongest(line, n);
      }
    }
  }

  /** A comment cut one character short of the longest marker-free prefix. */
  lemma {:induction false} CutCanBeShort()
    ensures var line := [65, SLASH, SLASH, 66];
            StripComment(line) == [65] && MarkerFree([65, SLASH]) && [65, SLASH] <= line
  {
    var line: Text := [65, SLASH, SLASH, 66];
    assert MarkerAt(line, 1);
    assert !MarkerAt(line, 0);
  }

  // ---------------------------------------------------------------- trimming and lines

  function TrimEnd(space: Byte -> bool, s: Text): Text
    decreases |s|
  {
    if s != [] && space(s[|s| - 1]) then TrimEnd(space, s[..|s| - 1]) else s
  }

  function TrimStart(space: Byte -> bool, s: Text): Text
    decreases |s|
  {
    if s != [] && space(s[0]) then TrimStart(space, s[1..]) else s
  }

  function Trim(space: Byte -> bool, s: Text): Text {
    TrimStart(space, TrimEnd(space, s))
  }

  function StripCr(s: Text): Text {
    if s != [] && s[|s| - 1] == CR then s[..|s| - 1] else s
  }

  /** Lines end at a line feed, with a carriage return before it dropped; an unterminated last line keeps
      its carriage return; nothing follows a final line feed. */
  function SplitLines(s: Text): seq<Text>
    decreases |s|
  {
    if s == [] then []
    else
      var i := Find(s, LF);
      if i == |s| then [s] else [StripCr(s[..i])] + SplitLines(s[i + 1..])
  }

  datatype Rules<!T> = Rules(space: Byte -> bool, extract: Text -> seq<T>)

  function ParseLine<T>(p: Rules<T>, line: Text): seq<T> {
    var trimmed := Trim(p.space, StripComment(line));
    if trimmed == [] then [] else p.extract(trimmed)
  }

  function ParseLines<T>(p: Rules<T>, lines: seq<Text>): seq<T>
    decreases |lines|
  {
    if lines == [] then [] else ParseLine(p, lines[0]) + ParseLines(p, lines[1..])
  }

  function ParseText<T>(p: Rules<T>, s: Text): seq<T> {
    ParseLines(p, SplitLines(s))
  }

  /** The parser's loop over the lines of a body. */
  method Parse<T>(p: Rules<T>, raw: Text) returns (results: seq<T>)
    ensures results == ParseText(p, raw)
  {
    results := [];
    var lines := SplitLines(raw);
    for i := 0 to |lines|
      invariant results == ParseLines(p, lines[..i])
    {
      var trimmed := Trim(p.space, StripComment(lines[i]));
      assert lines[..i + 1] == lines[..i] + [lines[i]];
      ParseSnoc(p, lines[..i], lines[i]);
      if trimmed != [] {
        results := results + p.extract(trimmed);
      }
    }
    assert lines[..|lines|] == lines;
  }

  lemma {:induction false} ParseOne<T>(p: Rules<T>, line: Text)
    ensures ParseLines(p, [line]) == ParseLine(p, line)
  {
    assert [line][1..] == [];
    assert ParseLine(p, line) + [] == ParseLine(p, line);
  }

  lemma {:induction false} ParseSnoc<T>(p: Rules<T>, lines: seq<Text>, last: Text)
    ensures ParseLines(p, lines + [last]) == ParseLines(p, lines) + ParseLine(p, last)
  {
    ParseLinesAppend(p, lines, [last]);
    ParseOne(p, last);
  }

  lemma {:induction false} Regroup<T>(a: seq<T>, b: seq<T>, c: seq<T>)
    ensures a + (b + c) == a + b + c
  {
  }

  lemma {:induction false} ParseLinesAppend<T>(p: Rules<T>, a: seq<Text>, b: seq<Text>)
    ensures ParseLines(p, a + b) == ParseLines(p, a) + ParseLines(p, b)
    decreases |a|
  {
    if a == [] {
      assert a + b == b;
    } else {
      assert (a + b)[0] == a[0] && (a + b)[1..] == a[1..] + b;
      ParseLinesAppend(p, a[1..], b);
      Regroup(ParseLine(p, a[0]), ParseLines(p, a[1..]), ParseLines(p, b));
    }
  }

  lemma {:induction false} FindUnique(s: Text, b: Byte, i: nat)
    requires i < |s| && s[i] == b && forall j :: 0 <= j < i ==> s[j] != b
    ensures Find(s, b) == i
  {
  }

  /** A text that ends its last line can be split apart from whatever follows it. */
  lemma {:induction false} SplitAfterLf(s: Text, t: Text)
    requires s != [] && s[|s| - 1] == LF
    ensures SplitLines(s + t) == SplitLines(s) + SplitLines(t)
    decreases |s|
  {
    var i := Find(s, LF);
    FindUnique(s + t, LF, i);
    assert (s + t)[..i] == s[..i];
    assert (s + t)[i + 1..] == s[i + 1..] + t;
    if i + 1 == |s| {
      assert s[i + 1..] == [] && [] + t == t;
      assert SplitLines(s) == [StripCr(s[..i])];
    } else {
      SplitAfterLf(s[i + 1..], t);
      assert s[i + 1..][|s[i + 1..]| - 1] == LF;
    }
  }

  /** Lines in bytes: a line feed (10) ends a line, one carriage return (13) before it goes too, and what
      follows the last line feed is a line unless it is empty. */
  lemma {:induction false} LinesMean(line: Text, rest: Text)
    requires forall i :: 0 <= i < |line| ==> line[i] != 10
    ensures SplitLines(line + [13, 10] + rest) == [line] + SplitLines(rest)
    ensures (line == [] || line[|line| - 1] != 13) ==> SplitLines(line + [10] + rest) == [line] + SplitLines(rest)
    ensures SplitLines(line) == if line == [] then [] else [line]
  {
    EndedLine(line + [13], rest);
    assert line + [13, 10] + rest == line + [13] + [10] + rest;
    assert StripCr(line + [13]) == line;
    EndedLine(line, rest);
  }

  lemma {:induction false} EndedLine(line: Text, rest: Text)
    requires forall i :: 0 <= i < |line| ==> line[i] != 10
    ensures SplitLines(line + [10] + rest) == [StripCr(line)] + SplitLines(rest)
  {
    var s := line + [10] + rest;
    FindUnique(s, LF, |line|);
    assert s[..|line|] == line && s[|line| + 1..] == rest;
  }

  // ---------------------------------------------------------------- one line in bytes

  /** Where a comment starts, in bytes: `#`, `;` or two slashes. */
  predicate CommentAt(s: Text, i: nat)
    requires i < |s|
  {
    s[i] == 35 || s[i] == 59 || (s[i] == 47 && i + 1 < |s| && s[i + 1] == 47)
  }

  /** Text after a marker never changes the tokens. */
  lemma {:induction false} CommentIsInvisible<T>(p: Rules<T>, head: Text, marker: Text, comment: Text)
    requires marker == [35] || marker == [59] || marker == [47, 47]
    ensures ParseLine(p, head + marker + comment) == ParseLine(p, head + marker)
  {
    var a, b := StripComment(head + marker + comment), StripComment(head + marker);
    SameMarkers(head, marker, comment);
    assert |a| <= |head| && |b| <= |head|;
    assert |a| == |b|;
    assert a == head[..|a|] == b;
  }

  lemma {:induction false} SameMarkers(head: Text, marker: Text, comment: Text)
    requires marker == [35] || marker == [59] || marker == [47, 47]
    ensures MarkerAt(head + marker, |head|) && MarkerAt(head + marker + comment, |head|)
    ensures forall i :: 0 <= i <= |head| ==> (MarkerAt(head + marker + comment, i) <==> MarkerAt(head + marker, i))
  {
    var long, short := head + marker + comment, head + marker;
    assert forall i :: 0 <= i < |short| ==> long[i] == short[i];
    assert short[|head|] == marker[0];
    if marker == [47, 47] {
      assert short[|head| + 1] == 47;
    }
  }

  lemma {:induction false} TrimEndOff(space: Byte -> bool, s: Text, post: Text)
    requires forall i :: 0 <= i < |post| ==> space(post[i])
    requires s == [] || !space(s[|s| - 1])
    ensures TrimEnd(space, s + post) == s
    decreases |post|
  {
    if post == [] {
      assert s + post == s;
    } else {
      assert (s + post)[..|s + post| - 1] == s + post[..|post| - 1];
      TrimEndOff(space, s, post[..|post| - 1]);
    }
  }

  lemma {:induction false} TrimStartOff(space: Byte -> bool, pre: Text, s: Text)
    requires forall i :: 0 <= i < |pre| ==> space(pre[i])
    requires s == [] || !space(s[0])
    ensures TrimStart(space, pre + s) == s
    decreases |pre|
  {
    if pre == [] {
      assert pre + s == s;
    } else {
      assert (pre + s)[1..] == pre[1..] + s;
      TrimStartOff(space, pre[1..], s);
    }
  }

  /** `text` is all of the line before its first comment. */
  predicate BeforeComment(text: Text, tail: Text) {
    && (forall i :: 0 <= i < |text| ==> !CommentAt(text + tail, i))
    && (tail != [] ==> CommentAt(text + tail, |text|))
  }

  lemma {:induction false} CutMeans(text: Text, tail: Text)
    requires BeforeComment(text, tail)
    ensures StripComment(text + tail) == text
  {
    var line := text + tail;
    var r := StripComment(line);
    assert forall i :: 0 <= i < |line| ==> (MarkerAt(line, i) <==> CommentAt(line, i));
    assert |r| == |text|;
  }

  /** What a line yields: with white space around `body` and a comment or nothing behind, exactly what the
      extractor finds in `body`; and nothing at all when there is only white space before the comment. */
  lemma {:induction false} LineMeans<T>(p: Rules<T>, pre: Text, body: Text, post: Text, tail: Text)
    requires forall i :: 0 <= i < |pre| ==> p.space(pre[i])
    requires forall i :: 0 <= i < |post| ==> p.space(post[i])
    requires body != [] ==> !p.space(body[0]) && !p.space(body[|body| - 1])
    requires BeforeComment(pre + body + post, tail)
    ensures body != [] ==> ParseLine(p, pre + body + post + tail) == p.extract(body)
    ensures body == [] ==> ParseLine(p, pre + body + post + tail) == []
  {
    CutMeans(pre + body + post, tail);
    if body == [] {
      assert pre + body + post == [] + (pre + post);
      TrimEndOff(p.space, [], pre + post);
    } else {
      TrimEndOff(p.space, pre + body, post);
      TrimStartOff(p.space, pre, body);
    }
  }

  /** A trailing carriage return never reaches the extractor: a comment cuts it off or trimming does. */
  lemma {:induction false} CrIsInvisible<T>(p: Rules<T>, line: Text)
    requires p.space(CR)
    ensures ParseLine(p, StripCr(line)) == ParseLine(p, line)
  {
    if line != [] && line[|line| - 1] == CR {
      var y := line[..|line| - 1];
      var a, b := StripComment(y), StripComment(line);
      forall i | 0 <= i < |y|
        ensures MarkerAt(y, i) <==> MarkerAt(line, i)
      {
      }
      if |a| < |y| {
        assert MarkerAt(line, |a|);
        assert a == b;
      } else {
        assert !MarkerAt(line, |y|);
        assert b == line && a == y;
        assert TrimEnd(p.space, b) == TrimEnd(p.space, a);
      }
    }
  }

  /** Ending the last line of a text changes nothing. */
  lemma {:induction false} LfIsInvisible<T>(p: Rules<T>, s: Text)
    requires p.space(CR) && s != [] && s[|s| - 1] != LF
    ensures ParseText(p, s + [LF]) == ParseText(p, s)
    decreases |s|
  {
    var i := Find(s, LF);
    FindUnique(s + [LF], LF, i);
    assert (s + [LF])[..i] == s[..i];
    if i == |s| {
      assert (s + [LF])[i + 1..] == [];
      assert SplitLines(s + [LF]) == [StripCr(s)];
      CrIsInvisible(p, s);
      assert ParseLines(p, [s]) == ParseLine(p, s) + ParseLines(p, [s][1..]);
      assert ParseLines(p, [StripCr(s)]) == ParseLine(p, StripCr(s)) + ParseLines(p, [StripCr(s)][1..]);
    } else {
      assert (s + [LF])[i + 1..] == s[i + 1..] + [LF];
      var head, tail := [StripCr(s[..i])], s[i + 1..];
      assert SplitLines(s + [LF]) == head + SplitLines(tail + [LF]);
      LfIsInvisible(p, tail);
      ParseLinesAppend(p, head, SplitLines(tail));
      ParseLinesAppend(p, head, SplitLines(tail + [LF]));
    }
  }
}

/**
 Unpacking a zipped feed: members are joined with a line feed between them, under one byte budget for the
 whole archive.
 */
module Archive {
  import opened Optional
  import opened Arithmetic
  import opened Bytes
  import opened Lines

  /** A file yields its content, and then ends or, if `breaks`, fails to decompress any further. */
  datatype Member = Directory | File(content: Text, breaks: bool) | Unreadable

  datatype Result = Ok(body: Text) | OpenArchive | EmptyArchive | ReadMember | TooLarge

  predicate IsZip(bytes: Text) {
    |bytes| >= 4 && (bytes[..4] == [0x50, 0x4b, 0x03, 0x04] || bytes[..4] == [0x50, 0x4b, 0x05, 0x06])
  }

  /** What one more member does to the output. */
  function Append(combined: Text, content: Text): Text {
    combined + (if combined != [] && combined[|combined| - 1] != LF then [LF] else []) + content
  }

  function Join(files: seq<Text>): Text
    decreases |files|
  {
    if files == [] then [] else Append(Join(files[..|files| - 1]), files[|files| - 1])
  }

  /** What the file members yield, in order. */
  function Files(ms: seq<Member>): seq<Text>
    decreases |ms|
  {
    if ms == [] then []
    else
      var last := ms[|ms| - 1];
      Files(ms[..|ms| - 1]) + if last.File? then [last.content] else []
  }

  /** Every file, at its turn, meets a non-zero remaining budget that covers it. */
  predicate Fits(files: seq<Text>, limit: nat)
    decreases |files|
  {
    files == [] ||
    (&& Fits(files[..|files| - 1], limit)
     && |Join(files[..|files| - 1])| < limit
     && |files[|files| - 1]| <= limit - |Join(files[..|files| - 1])|)
  }

  predicate Sound(m: Member) {
    m.Directory? || (m.File? && !m.breaks)
  }

  predicate Readable(ms: seq<Member>) {
    forall m :: m in ms ==> Sound(m)
  }

  /** One file as it was read: the bytes taken from it, and the budget that was left for it. */
  datatype Read = Read(taken: nat, budget: nat)

  predicate ReadAt(files: seq<Text>, limit: nat, k: nat, read: Read)
    requires k < |files|
  {
    var before := |Join(files[..k])|;
    before < limit && read.budget == limit - before && read.taken == Least(|files[k]|, read.budget + 1)
  }

  /** The files read, in order: each against the non-zero budget the earlier ones leave, up to one byte
      beyond it, and only after every earlier file has fitted. */
  predicate Reads(files: seq<Text>, limit: nat, log: seq<Read>) {
    && |log| <= |files|
    && (forall k :: 0 <= k < |log| ==> ReadAt(files, limit, k, log[k]))
    && (log != [] ==> Fits(files[..|log| - 1], limit))
  }

  /** The budget ran out: before the next file, or within the last one read. */
  predicate Exhausted(files: seq<Text>, limit: nat, log: seq<Read>)
    requires |log| <= |files|
  {
    || (|log| < |files| && |Join(files[..|log|])| >= limit)
    || (log != [] && log[|log| - 1].taken == log[|log| - 1].budget + 1)
  }

  /** What adding one member to the output so far gives. */
  function Added(m: Member, combined: Text, limit: nat): Result {
    match m
    case Directory => Ok(combined)
    case Unreadable => ReadMember
    case File(content, breaks) =>
      if |combined| >= limit || |content| > limit - |combined| then TooLarge
      else if breaks then ReadMember
      else Ok(Append(combined, content))
  }

  /** What of the member is read for that: nothing unless it is a file with some budget left. */
  function Taken(m: Member, combined: Text, limit: nat): seq<Read> {
    if m.File? && |combined| < limit
    then [Read(Least(|m.content|, limit - |combined| + 1), limit - |combined|)]
    else []
  }

  method AddMember(m: Member, combined: Text, limit: nat) returns (r: Result, ghost read: seq<Read>)
    ensures r == Added(m, combined, limit)
    ensures read == Taken(m, combined, limit)
  {
    read := [];
    if m.Unreadable? {
      return ReadMember, read;
    }
    if m.Directory? {
      return Ok(combined), read;
    }
    var budget := if |combined| <= limit then limit - |combined| else 0;
    if budget == 0 {
      return TooLarge, read;
    }
    var contents := m.content[..Least(|m.content|, budget + 1)];
    read := [Read(|contents|, budget)];
    if |contents| > budget {
      return TooLarge, read;
    }
    if m.breaks {
      return ReadMember, read;
    }
    return Ok(Append(combined, contents)), read;
  }

  /** The first `i` members have been joined without trouble. */
  ghost predicate Upto(ms: seq<Member>, i: nat, limit: nat, combined: Text, log: seq<Read>)
    requires i <= |ms|
  {
    && combined == Join(Files(ms[..i]))
    && Readable(ms[..i]) && Fits(Files(ms[..i]), limit)
    && |log| == |Files(ms[..i])| && Reads(Files(ms), limit, log)
  }

  /** Joins the members under the budget. `log` is what was read of the files among the first `reached`
      members. */
  method Unpack(ms: seq<Member>, limit: nat) returns (r: Result, ghost log: seq<Read>, ghost reached: nat)
    ensures r.Ok? <==> Readable(ms) && Fits(Files(ms), limit)
    ensures r.Ok? ==> r.body == Join(Files(ms))
    ensures r.TooLarge? ==> !Fits(Files(ms), limit)
    ensures r.ReadMember? ==> !Readable(ms)
    ensures r.Ok? || r.TooLarge? || r.ReadMember?
    ensures Reads(Files(ms), limit, log)
    ensures reached <= |ms| && |log| == |Files(ms[..reached])|
    ensures r.Ok? ==> reached == |ms|
    ensures r.TooLarge? ==> Exhausted(Files(ms), limit, log)
  {
    log, reached := [], 0;
    var combined: Text := [];
    for i := 0 to |ms|
      invariant reached == i && Upto(ms, i, limit, combined, log)
    {
      ghost var read;
      r, read := AddMember(ms[i], combined, limit);
      MemberAdded(ms, i, limit, combined, log, r, read);
      log := log + read;
      reached := if r.Ok? || read != [] then i + 1 else i;
      if !r.Ok? {
        return r, log, reached;
      }
      combined := r.body;
    }
    assert ms[..|ms|] == ms;
    r := Ok(combined);
  }

  lemma {:induction false} MemberAdded(
    ms: seq<Member>, i: nat, limit: nat, combined: Text, log: seq<Read>, r: Result, read: seq<Read>)
    requires i < |ms| && Upto(ms, i, limit, combined, log)
    requires r == Added(ms[i], combined, limit) && read == Taken(ms[i], combined, limit)
    ensures Reads(Files(ms), limit, log + read)
    ensures |log + read| == |Files(ms[..if r.Ok? || read != [] then i + 1 else i])|
    ensures r.Ok? ==> Upto(ms, i + 1, limit, r.body, log + read)
    ensures r.TooLarge? ==> !Fits(Files(ms), limit) && Exhausted(Files(ms), limit, log + read)
    ensures r.ReadMember? ==> !Readable(ms)
  {
    NextMember(ms, i, limit);
    MemberRead(ms, i, limit, combined, log, r, read);
    if r.TooLarge? {
      FitsPrefix(ms, i + 1, limit);
    } else if r.ReadMember? {
      assert ms[i] in ms;
    }
  }

  lemma {:induction false} MemberRead(
    ms: seq<Member>, i: nat, limit: nat, combined: Text, log: seq<Read>, r: Result, read: seq<Read>)
    requires i < |ms| && Upto(ms, i, limit, combined, log)
    requires r == Added(ms[i], combined, limit) && read == Taken(ms[i], combined, limit)
    ensures Reads(Files(ms), limit, log + read)
    ensures |Files(ms[..i + 1])| == |log| + if ms[i].File? then 1 else 0
    ensures r.TooLarge? ==> Exhausted(Files(ms), limit, log + read)
  {
    FilesPrefix(ms, i);
    assert ms[..i + 1][..i] == ms[..i];
    if read == [] {
      assert log + read == log;
    } else {
      NextRead(Files(ms), limit, log);
    }
  }

  lemma {:induction false} ReadsSnoc(files: seq<Text>, limit: nat, log: seq<Read>, read: Read)
    requires |log| < |files| && forall k :: 0 <= k < |log| ==> ReadAt(files, limit, k, log[k])
    requires ReadAt(files, limit, |log|, read) && Fits(files[..|log|], limit)
    ensures Reads(files, limit, log + [read])
  {
    var longer := log + [read];
    forall k | 0 <= k < |longer|
      ensures ReadAt(files, limit, k, longer[k])
    {
      if k < |log| {
        assert longer[k] == log[k];
      }
    }
  }

  /** Reading the next file against what is left, when every file so far has fitted, extends the log. */
  lemma {:induction false} NextRead(files: seq<Text>, limit: nat, log: seq<Read>)
    requires Reads(files, limit, log) && |log| < |files|
    requires Fits(files[..|log|], limit) && |Join(files[..|log|])| < limit
    ensures var budget := limit - |Join(files[..|log|])|;
            Reads(files, limit, log + [Read(Least(|files[|log|]|, budget + 1), budget)])
  {
    var budget := limit - |Join(files[..|log|])|;
    var read := Read(Least(|files[|log|]|, budget + 1), budget);
    assert ReadAt(files, limit, |log|, read);
    ReadsSnoc(files, limit, log, read);
  }

  /** The files of the first members are the first files. */
  lemma {:induction false} FilesPrefix(ms: seq<Member>, i: nat)
    requires i <= |ms|
    ensures |Files(ms[..i])| <= |Files(ms)| && Files(ms)[..|Files(ms[..i])|] == Files(ms[..i])
    ensures i < |ms| && ms[i].File? ==>
              |Files(ms[..i])| < |Files(ms)| && Files(ms)[|Files(ms[..i])|] == ms[i].content
    decreases |ms|
  {
    if i == |ms| {
      assert ms[..i] == ms;
    } else {
      var init := ms[..|ms| - 1];
      assert init[..i] == ms[..i];
      FilesPrefix(init, i);
    }
  }

  function TotalTaken(log: seq<Read>): nat
    decreases |log|
  {
    if log == [] then 0 else TotalTaken(log[..|log| - 1]) + log[|log| - 1].taken
  }

  /** However the archive is made, no more than one byte beyond the limit is ever decompressed in all. */
  lemma {:induction false} ReadingBounded(files: seq<Text>, limit: nat, log: seq<Read>)
    requires Reads(files, limit, log)
    ensures TotalTaken(log) <= limit + 1
  {
    if log != [] {
      var n := |log| - 1;
      TakenInFull(files, limit, log, n);
      OutputBounded(files[..n], limit);
    }
  }

  lemma {:induction false} TakenInFull(files: seq<Text>, limit: nat, log: seq<Read>, n: nat)
    requires Reads(files, limit, log) && n < |log| && Fits(files[..n], limit)
    ensures TotalTaken(log[..n]) == Total(files[..n])
    decreases n
  {
    if n > 0 {
      assert files[..n][..n - 1] == files[..n - 1] && log[..n][..n - 1] == log[..n - 1];
      TakenInFull(files, limit, log, n - 1);
    }
  }

  /** Unpacks an archive, or passes anything else through. `archive` is what opening the bytes as an
      archive gives, and `log` what was decompressed of it. */
  method DecompressIfZip(bytes: Text, archive: Option<seq<Member>>, limit: nat)
    returns (r: Result, ghost log: seq<Read>, ghost reached: nat)
    ensures IsZip(bytes) <==> [80, 75, 3, 4] <= bytes || [80, 75, 5, 6] <= bytes
    ensures !IsZip(bytes) ==> r == Ok(bytes)
    ensures IsZip(bytes) && archive.None? ==> r == OpenArchive
    ensures IsZip(bytes) && archive == Some([]) ==> r == EmptyArchive
    ensures !IsZip(bytes) || archive.None? ==> log == []
    ensures IsZip(bytes) && archive.Some? ==>
              && Reads(Files(archive.value), limit, log) && TotalTaken(log) <= limit + 1
              && reached <= |archive.value| && |log| == |Files(archive.value[..reached])|
              && (r.Ok? ==> reached == |archive.value|)
              && (r.TooLarge? ==> Exhausted(Files(archive.value), limit, log))
    ensures IsZip(bytes) && archive.Some? && archive.value != [] ==>
              && (r.Ok? <==> Readable(archive.value) && Fits(Files(archive.value), limit))
              && (r.Ok? ==> r.body == Join(Files(archive.value)))
              && (r.TooLarge? ==> !Fits(Files(archive.value), limit))
              && (r.ReadMember? ==> !Readable(archive.value))
              && (r.Ok? || r.TooLarge? || r.ReadMember?)
  {
    log, reached := [], 0;
    if !IsZip(bytes) {
      return Ok(bytes), log, reached;
    }
    if archive.None? {
      return OpenArchive, log, reached;
    }
    if archive.value == [] {
      return EmptyArchive, log, reached;
    }
    r, log, reached := Unpack(archive.value, limit);
    ReadingBounded(Files(archive.value), limit, log);
  }

  /** What one more member means for the files, the joined text, the budget and readability. */
  lemma {:induction false} NextMember(ms: seq<Member>, i: nat, limit: nat)
    requires i < |ms| && Fits(Files(ms[..i]), limit)
    ensures Readable(ms[..i + 1]) <==> Readable(ms[..i]) && Sound(ms[i])
    ensures !ms[i].File? ==> Files(ms[..i + 1]) == Files(ms[..i])
    ensures ms[i].File? ==>
              && Join(Files(ms[..i + 1])) == Append(Join(Files(ms[..i])), ms[i].content)
              && (Fits(Files(ms[..i + 1]), limit) <==>
                    |Join(Files(ms[..i]))| < limit && |ms[i].content| <= limit - |Join(Files(ms[..i]))|)
  {
    assert ms[..i + 1][..i] == ms[..i];
    assert ms[..i + 1] == ms[..i] + [ms[i]];
    var files := Files(ms[..i + 1]);
    if ms[i].File? {
      assert files[..|files| - 1] == Files(ms[..i]);
    }
  }

  /** A budget broken part way through is broken for the whole archive. */
  lemma {:induction false} FitsPrefix(ms: seq<Member>, i: nat, limit: nat)
    requires i <= |ms| && !Fits(Files(ms[..i]), limit)
    ensures !Fits(Files(ms), limit)
    decreases |ms|
  {
    if i == |ms| {
      assert ms[..i] == ms;
    } else {
      var rest := ms[..|ms| - 1];
      assert rest[..i] == ms[..i];
      FitsPrefix(rest, i, limit);
      if ms[|ms| - 1].File? {
        assert Files(ms)[..|Files(ms)| - 1] == Files(rest);
      } else {
        assert Files(ms) == Files(rest);
      }
    }
  }

  function Total(files: seq<Text>): nat
    decreases |files|
  {
    if files == [] then 0 else Total(files[..|files| - 1]) + |files[|files| - 1]|
  }

  /** What fits holds at most `limit` member bytes, and separators push the output over by at most one. */
  lemma {:induction false} OutputBounded(files: seq<Text>, limit: nat)
    requires Fits(files, limit)
    ensures Total(files) <= limit
    ensures Total(files) <= |Join(files)| <= limit + 1
    decreases |files|
  {
    if files != [] {
      OutputBounded(files[..|files| - 1], limit);
    }
  }

  /** The output exceeds the limit exactly when the last file fills its whole budget and a separator had to
      be put before it. */
  lemma {:induction false} OvershootsIff(files: seq<Text>, limit: nat)
    requires Fits(files, limit)
    ensures |Join(files)| > limit <==>
            && files != []
            && var before := Join(files[..|files| - 1]);
            && before != [] && before[|before| - 1] != LF
            && |files[|files| - 1]| == limit - |before|
  {
    OutputBounded(files, limit);
  }

  /** The one-byte overshoot does happen. */
  lemma {:induction false} OvershootHappens()
    ensures Fits([[65], [66]], 2) && |Join([[65], [66]])| == 3
  {
    var files: seq<Text> := [[65], [66]];
    assert files[..1] == [[65]] && files[..1][..0] == [];
    assert Join([]) == [];
    assert Join([[65]]) == Append([], [65]) == [65];
    assert Join(files) == Append([65], [66]);
  }

  // ---------------------------------------------------------------- no token is fused across members

  lemma {:induction false} AppendParses<T>(p: Rules<T>, combined: Text, content: Text)
    requires p.space(CR)
    ensures ParseText(p, Append(combined, content)) == ParseText(p, combined) + ParseText(p, content)
  {
    if combined == [] {
      assert Append(combined, content) == content;
    } else if combined[|combined| - 1] == LF {
      assert Append(combined, content) == combined + content;
      SplitAfterLf(combined, content);
      ParseLinesAppend(p, SplitLines(combined), SplitLines(content));
    } else {
      var ended := combined + [LF];
      assert Append(combined, content) == ended + content;
      SplitAfterLf(ended, content);
      ParseLinesAppend(p, SplitLines(ended), SplitLines(content));
      LfIsInvisible(p, combined);
    }
  }

  function ParseEach<T>(p: Rules<T>, files: seq<Text>): seq<T>
    decreases |files|
  {
    if files == [] then [] else ParseEach(p, files[..|files| - 1]) + ParseText(p, files[|files| - 1])
  }

  /** Parsing the joined output is parsing each member alone, in order. */
  lemma {:induction false} JoinParsesEach<T>(p: Rules<T>, files: seq<Text>)
    requires p.space(CR)
    ensures ParseText(p, Join(files)) == ParseEach(p, files)
    decreases |files|
  {
    if files != [] {
      JoinParsesEach(p, files[..|files| - 1]);
      AppendParses(p, Join(files[..|files| - 1]), files[|files| - 1]);
    }
  }

  // ---------------------------------------------------------------- streamed bodies

  function Concat(chunks: seq<Text>): Text
    decreases |chunks|
  {
    if chunks == [] then [] else Concat(chunks[..|chunks| - 1]) + chunks[|chunks| - 1]
  }

  lemma {:induction false} ConcatGrows(chunks: seq<Text>, i: nat)
    requires i <= |chunks|
    ensures |Concat(chunks[..i])| <= |Concat(chunks)|
    decreases |chunks|
  {
    if i == |chunks| {
      assert chunks[..i] == chunks;
    } else {
      ConcatGrows(chunks[..|chunks| - 1], i);
      assert chunks[..|chunks| - 1][..i] == chunks[..i];
    }
  }

  /** Reads a streamed body until it ends or crosses the ceiling. `broken` is the index of a chunk that
      cannot be read, if any. */
  method ReadCappedBody(chunks: seq<Text>, broken: Option<nat>, limit: nat) returns (r: Result)
    ensures r.Ok? <==> (broken.None? || broken.value >= |chunks|) && |Concat(chunks)| <= limit
    ensures r.Ok? ==> r.body == Concat(chunks)
    ensures r.TooLarge? ==> |Concat(chunks)| > limit
    ensures r.Ok? || r.TooLarge? || r == ReadMember
  {
    var buf: Text := [];
    for i := 0 to |chunks|
      invariant buf == Concat(chunks[..i]) && |buf| <= limit
      invariant broken.Some? ==> i <= broken.value
    {
      if broken == Some(i) {
        return ReadMember;
      }
      assert chunks[..i + 1][..i] == chunks[..i];
      buf := buf + chunks[i];
      if |buf| > limit {
        ConcatGrows(chunks, i + 1);
        return TooLarge;
      }
    }
    assert chunks[..|chunks|] == chunks;
    r := Ok(buf);
  }
}
