/**
 * `VideoCategorizerHandler` of `handlers/video-categorizer.handler.ts`: a
 * video whose caption mentions someone gets a new caption built from its file
 * name, `Course - Lesson - Title.mp4` becoming the title followed by a course
 * tag and a lesson tag.
 */
module VideoCategorizer {
  import opened Wrappers
  import opened Strings
  import Paths
  import opened Handlers

  /** The Bot API requests `handle` makes. */
  datatype Action = Reply(text: string, replyTo: int) | EditCaption(caption: string)

  /** What one `handle` did: the requests in the order it made them, and how
      its promise settled. */
  datatype Outcome = Outcome(actions: seq<Action>, completion: Completion)

  const FormatError: string := "Filename format error. Use: `Course - Lesson - Title.mp4`"
  const EditFailed: string := "Error editing caption. Check permissions."

  /** The message carries a video and a caption containing `@`. */
  predicate IsVideoMention(ctx: Context) {
    && ctx.message.Some?
    && ctx.message.value.video.Some?
    && ctx.message.value.caption.Some?
    && '@' in ctx.message.value.caption.value
  }

  /** `validation`: it never throws; it answers whether the update is a video
      mention. */
  function Validation(ctx: Context): (r: Step<bool>)
    ensures r.Returns?
    ensures r.value ==> ctx.message.Some? && ctx.message.value.video.Some?
    ensures r.value <==> IsVideoMention(ctx)
  {
    Returns(IsVideoMention(ctx))
  }

  /** A tag: `#` followed by the text with every white-space character removed. */
  function Tag(s: string): (t: string)
    ensures t != [] && t[0] == '#'
    ensures forall c :: c in t[1..] <==> c in s && !IsSpace(c)
  {
    FilterSpec(s, c => !IsSpace(c));
    var t := "#" + Filter(s, c => !IsSpace(c));
    assert t[1..] == Filter(s, c => !IsSpace(c));
    t
  }

  /** The trimmed dash-separated pieces of the file name without its extension. */
  function CaptionParts(fileName: string): (parts: seq<string>)
    ensures |parts| == multiset(Paths.ParsedName(fileName))['-'] + 1
  {
    SplitCount(Paths.ParsedName(fileName), '-');
    TrimAll(Split(Paths.ParsedName(fileName), '-'))
  }

  /** The new caption: the title, a blank line, the course tag and the lesson tag. */
  function NewCaption(courseName: string, lesson: string, title: string): (c: string)
    ensures |c| == |title| + 2 + |Tag(courseName)| + 1 + |Tag(lesson)|
    ensures c[..|title| + 2] == title + "\n\n"
    ensures c[|title| + 2..] == Tag(courseName) + "\n" + Tag(lesson)
  {
    var c := title + "\n\n" + Tag(courseName) + "\n" + Tag(lesson);
    assert c == (title + "\n\n") + (Tag(courseName) + "\n" + Tag(lesson));
    c
  }

  /** The video's file name, when the update carries a non-empty one. */
  function FileNameOf(ctx: Context): (r: Option<string>)
    ensures r.Some? ==> ctx.message.Some? && ctx.message.value.video.Some? && r.value != []
  {
    if ctx.message.Some? && ctx.message.value.video.Some? && ctx.message.value.video.value.fileName.Some?
       && ctx.message.value.video.value.fileName.value != []
    then ctx.message.value.video.value.fileName
    else None
  }

  /** The requests `handle` makes for a video with a non-empty file name, given
      the name's pieces: the format-error reply when there are fewer than three,
      otherwise the caption edit, followed by the error reply when the edit
      fails. */
  function Categorize(parts: seq<string>, messageId: int, succeeds: Action -> bool): (o: Outcome)
    ensures 1 <= |o.actions| <= 2
    ensures forall a :: a in o.actions && a.Reply? ==> a.replyTo == messageId
    ensures o.actions[|o.actions| - 1].EditCaption? ==> succeeds(o.actions[|o.actions| - 1])
    ensures o.completion == Rejected <==> !succeeds(o.actions[|o.actions| - 1])
  {
    if |parts| < 3 then
      var reply := Reply(FormatError, messageId);
      Outcome([reply], if succeeds(reply) then Resolved else Rejected)
    else
      var edit := EditCaption(NewCaption(parts[0], parts[1], parts[2]));
      if succeeds(edit) then Outcome([edit], Resolved)
      else
        var reply := Reply(EditFailed, messageId);
        Outcome([edit, reply], if succeeds(reply) then Resolved else Rejected)
  }

  /** `handle`: `succeeds` says which requests the Bot API accepts. A missing
      message or video throws; a missing or empty file name does nothing; a
      name with fewer than three pieces gets the format-error reply; otherwise
      the caption is edited, and a failed edit gets the error reply. A reply
      that fails rejects the handler's promise. */
  function Handle(ctx: Context, succeeds: Action -> bool): (o: Outcome)
    ensures |o.actions| <= 2
    ensures o.actions != [] <==> FileNameOf(ctx).Some?
    ensures forall a :: a in o.actions && a.Reply? ==> ctx.message.Some? && a.replyTo == ctx.message.value.messageId
    ensures o.actions != [] && o.actions[|o.actions| - 1].EditCaption? ==> succeeds(o.actions[|o.actions| - 1])
    ensures o.completion == Rejected <==>
      ctx.message.None? || ctx.message.value.video.None? || (o.actions != [] && !succeeds(o.actions[|o.actions| - 1]))
  {
    if ctx.message.None? || ctx.message.value.video.None? then Outcome([], Rejected)
    else
      match FileNameOf(ctx)
      case None => Outcome([], Resolved)
      case Some(name) => Categorize(CaptionParts(name), ctx.message.value.messageId, succeeds)
  }

  /** The handler `register` is given: its hooks on every update. */
  function AsHandler(succeeds: Action -> bool): Handler {
    Handler(Validation, ctx => Handle(ctx, succeeds).completion)
  }

  /** `Categorize` edits the caption exactly when there are at least three
      pieces, and then to the caption built from the first three. */
  lemma CategorizeEdits(parts: seq<string>, messageId: int, succeeds: Action -> bool, caption: string)
    ensures EditCaption(caption) in Categorize(parts, messageId, succeeds).actions <==>
      |parts| >= 3 && caption == NewCaption(parts[0], parts[1], parts[2])
  {
    var o := Categorize(parts, messageId, succeeds);
    if |parts| >= 3 {
      assert o.actions[0] == EditCaption(NewCaption(parts[0], parts[1], parts[2]));
      assert |o.actions| == 2 ==> o.actions[1].Reply?;
    } else {
      assert o.actions == [Reply(FormatError, messageId)];
    }
  }

  /** `Categorize` sends the format-error reply exactly when there are fewer
      than three pieces. */
  lemma CategorizeFormatError(parts: seq<string>, messageId: int, succeeds: Action -> bool, id: int)
    ensures Reply(FormatError, id) in Categorize(parts, messageId, succeeds).actions <==>
      |parts| < 3 && id == messageId
  {
    var o := Categorize(parts, messageId, succeeds);
    if |parts| >= 3 {
      assert o.actions[0].EditCaption?;
      assert |o.actions| == 2 ==> o.actions[1] == Reply(EditFailed, messageId);
      assert |FormatError| != |EditFailed|;
    } else {
      assert o.actions == [Reply(FormatError, messageId)];
    }
  }

  /** The caption is edited exactly when the file name has at least two dashes
      before its extension, and then to the caption built from its first three
      pieces. */
  lemma EditsIff(ctx: Context, succeeds: Action -> bool, caption: string)
    ensures EditCaption(caption) in Handle(ctx, succeeds).actions <==>
      && FileNameOf(ctx).Some?
      && multiset(Paths.ParsedName(FileNameOf(ctx).value))['-'] >= 2
      && var parts := CaptionParts(FileNameOf(ctx).value);
         caption == NewCaption(parts[0], parts[1], parts[2])
  {
    if FileNameOf(ctx).Some? {
      var parts := CaptionParts(FileNameOf(ctx).value);
      assert Handle(ctx, succeeds) == Categorize(parts, ctx.message.value.messageId, succeeds);
      CategorizeEdits(parts, ctx.message.value.messageId, succeeds, caption);
    }
  }

  /** The format-error reply is sent exactly when the file name has fewer than
      two dashes before its extension. */
  lemma FormatErrorIff(ctx: Context, succeeds: Action -> bool, id: int)
    ensures Reply(FormatError, id) in Handle(ctx, succeeds).actions <==>
      && FileNameOf(ctx).Some?
      && multiset(Paths.ParsedName(FileNameOf(ctx).value))['-'] < 2
      && id == ctx.message.value.messageId
  {
    if FileNameOf(ctx).Some? {
      var parts := CaptionParts(FileNameOf(ctx).value);
      assert Handle(ctx, succeeds) == Categorize(parts, ctx.message.value.messageId, succeeds);
      CategorizeFormatError(parts, ctx.message.value.messageId, succeeds, id);
    }
  }

  /** A tag holds no white space, so no line break. */
  lemma TagOneLine(s: string)
    ensures '\n' !in Tag(s)
  {
    var t := Tag(s);
    assert t == [t[0]] + t[1..];
    assert IsSpace('\n');
  }

  /** The caption reads back line by line: the title, an empty line, the course
      tag, the lesson tag. */
  lemma CaptionLines(courseName: string, lesson: string, title: string)
    requires '\n' !in title
    ensures Split(NewCaption(courseName, lesson, title), '\n') == [title, [], Tag(courseName), Tag(lesson)]
  {
    var lines: seq<string> := [title, [], Tag(courseName), Tag(lesson)];
    TagOneLine(courseName);
    TagOneLine(lesson);
    assert Join(lines[3..], '\n') == Tag(lesson);
    assert Join(lines[2..], '\n') == Tag(courseName) + "\n" + Tag(lesson) by {
      assert lines[2..][1..] == lines[3..];
    }
    assert Join(lines[1..], '\n') == "\n" + Tag(courseName) + "\n" + Tag(lesson) by {
      assert lines[1..][1..] == lines[2..];
    }
    assert Join(lines, '\n') == NewCaption(courseName, lesson, title) by {
      assert NewCaption(courseName, lesson, title) == title + ("\n" + ("\n" + Tag(courseName) + "\n" + Tag(lesson)));
    }
    SplitJoin(lines, '\n');
  }

  /** Pieces after the third do not reach the caption: names whose first three
      pieces agree are captioned alike. */
  lemma ExtraPiecesDropped(p: seq<string>, q: seq<string>, messageId: int, succeeds: Action -> bool)
    requires |p| >= 3 && |q| >= 3 && p[..3] == q[..3]
    ensures Categorize(p, messageId, succeeds) == Categorize(q, messageId, succeeds)
  {
    assert p[0] == p[..3][0] && p[1] == p[..3][1] && p[2] == p[..3][2];
    assert q[0] == q[..3][0] && q[1] == q[..3][1] && q[2] == q[..3][2];
  }

  /** On an accepted update `execute` runs both hooks and logs an error exactly
      when `handle` rejects. */
  lemma ValidatedExecution(ctx: Context, succeeds: Action -> bool)
    requires IsVideoMention(ctx)
    ensures ExecuteOn(AsHandler(succeeds), ctx).calls == [Validate, HandlerCall.Handle]
    ensures ExecuteOn(AsHandler(succeeds), ctx).errorLogged <==> Handle(ctx, succeeds).completion == Rejected
  {
    assert AsHandler(succeeds).validation(ctx) == Returns(true);
  }
}
