/** The message composer: the text being typed, the files picked for
    upload, and the send handler that uploads the files and then posts one
    message per uploaded file and one for the text. */
module MessageInput {
  import opened Common
  import opened MessageModel

  // ------------------------------------------------------------ file types

  /** `filename.split('.').pop()`: the text after the last '.', or the whole
      name when it has none. */
  function Extension(s: string): (r: string)
    ensures |r| <= |s|
  {
    if s == [] then []
    else if s[|s| - 1] == '.' then []
    else Extension(s[..|s| - 1]) + [s[|s| - 1]]
  }

  /** The extension is the longest dot-free tail of the name. */
  lemma {:induction false} ExtensionIsLastPart(s: string)
    ensures var r := Extension(s);
      && r == s[|s| - |r|..]
      && '.' !in r
      && (|r| < |s| ==> s[|s| - |r| - 1] == '.')
    decreases |s|
  {
    if s != [] && s[|s| - 1] != '.' {
      var r := Extension(s);
      ExtensionIsLastPart(s[..|s| - 1]);
      assert s[..|s| - 1][|s| - |r|..] + [s[|s| - 1]] == s[|s| - |r|..];
    }
  }

  const ImageExts: seq<string> := ["jpg", "jpeg", "png", "gif", "webp", "svg"]
  const VideoExts: seq<string> := ["mp4", "webm", "ogg", "mov", "avi"]
  const DocumentExts: seq<string> := ["pdf", "doc", "docx", "xls", "xlsx", "txt", "csv"]

  /** The decision on an extension already lower-cased: an empty one, a
      document extension and an unknown one all give a document. */
  function Classify(ext: string): (t: MsgType)
    ensures t != Text
    ensures t == Image <==> ext in ImageExts
    ensures t == Video <==> ext in VideoExts
  {
    if ext == "" then Document
    else if ext in ImageExts then Image
    else if ext in VideoExts then Video
    else if ext in DocumentExts then Document
    else Document
  }

  /** `getFileType`: the lower-cased extension decides. */
  function FileType(filename: string): (t: MsgType)
    ensures t != Text
  {
    Classify(Lower(Extension(filename)))
  }

  lemma FileTypeByExtension(filename: string)
    ensures FileType(filename) == Image <==> Lower(Extension(filename)) in ImageExts
    ensures FileType(filename) == Video <==> Lower(Extension(filename)) in VideoExts
  {
  }

  /** Only the text after the last dot counts. */
  lemma {:induction false} ExtensionOfLastPart(p: string, e: string)
    ensures Extension(p + "." + e) == Extension(e)
    decreases |e|
  {
    if e == [] {
    } else {
      var s := p + "." + e;
      assert s[..|s| - 1] == p + "." + e[..|e| - 1];
      assert s[|s| - 1] == e[|e| - 1];
      ExtensionOfLastPart(p, e[..|e| - 1]);
      if e[|e| - 1] != '.' {
        assert e[..|e| - 1] + [e[|e| - 1]] == e;
      }
    }
  }

  lemma FileTypeOfLastPart(p: string, e: string)
    ensures FileType(p + "." + e) == FileType(e)
  {
    ExtensionOfLastPart(p, e);
  }

  /** Lower-casing never makes or removes a dot, so it commutes with taking
      the extension. */
  lemma {:induction false} LowerExtension(s: string)
    ensures Lower(Extension(s)) == Extension(Lower(s))
    decreases |s|
  {
    if s != [] {
      var init, c := s[..|s| - 1], s[|s| - 1];
      assert s == init + [c];
      LowerSnoc(init, c);
      var t := Lower(s);
      assert t[..|t| - 1] == Lower(init) && t[|t| - 1] == LowerChar(c);
      LowerExtension(init);
      if c != '.' {
        LowerSnoc(Extension(init), c);
      }
    }
  }

  lemma LowerSnoc(x: string, c: char)
    ensures Lower(x + [c]) == Lower(x) + [LowerChar(c)]
  {
    var l, m := Lower(x + [c]), Lower(x) + [LowerChar(c)];
    forall i | 0 <= i < |l| ensures l[i] == m[i] {
      if i < |x| {
        assert (x + [c])[i] == x[i];
      }
    }
  }

  /** The classification ignores the case of the name. */
  lemma FileTypeIgnoresCase(a: string, b: string)
    requires Lower(a) == Lower(b)
    ensures FileType(a) == FileType(b)
  {
    LowerExtension(a);
    LowerExtension(b);
  }

  /** A name without a dot is its own extension. */
  lemma {:induction false} DotFreeExtension(s: string)
    requires '.' !in s
    ensures Extension(s) == s
    decreases |s|
  {
    if s != [] {
      DotFreeExtension(s[..|s| - 1]);
      assert s[..|s| - 1] + [s[|s| - 1]] == s;
    }
  }

  lemma ImageExample()
    ensures FileType("holiday.photo.JPG") == Image
  {
    assert "holiday.photo.JPG" == "holiday.photo" + "." + "JPG";
    ExtensionOfLastPart("holiday.photo", "JPG");
    DotFreeExtension("JPG");
    assert Lower("JPG") == "jpg";
  }

  lemma VideoExample()
    ensures FileType("clip.mp4") == Video
  {
    assert "clip.mp4" == "clip" + "." + "mp4";
    ExtensionOfLastPart("clip", "mp4");
    DotFreeExtension("mp4");
    assert Lower("mp4") == "mp4";
  }

  /** No dot: the whole name is taken as the extension. A trailing dot: an
      empty extension. */
  lemma DocumentExamples()
    ensures FileType("TODO") == Document
    ensures FileType("photo.") == Document
  {
    NoDotExample();
    TrailingDotExample();
  }

  lemma NoDotExample()
    ensures FileType("TODO") == Document
  {
    DotFreeExtension("TODO");
    assert Lower("TODO") == "todo";
  }

  lemma TrailingDotExample()
    ensures FileType("photo.") == Document
  {
    assert Extension("photo.") == "";
  }

  // ------------------------------------------------------------ selection

  datatype FileInfo = FileInfo(name: string, size: nat)

  const MaxFileSize: nat := 10 * 1024 * 1024
  const MaxFiles: nat := 10

  /** What the picker enforces on the selection. */
  predicate WithinLimits(files: seq<FileInfo>) {
    |files| <= MaxFiles && forall k :: 0 <= k < |files| ==> files[k].size <= MaxFileSize
  }

  /** `handleFileChange`: an empty choice does nothing; a choice holding a
      file over 10 MiB, or one that takes the selection past ten files, is
      refused whole; otherwise the chosen files are appended. */
  function AfterFileChange(selected: seq<FileInfo>, chosen: seq<FileInfo>): (r: seq<FileInfo>)
    ensures r == selected || r == selected + chosen
    ensures r == selected + chosen <==>
      chosen == [] || (|selected| + |chosen| <= MaxFiles && forall f :: f in chosen ==> f.size <= MaxFileSize)
    ensures WithinLimits(selected) ==> WithinLimits(r)
  {
    if chosen == [] then selected
    else if exists f :: f in chosen && f.size > MaxFileSize then selected
    else if |selected| + |chosen| > MaxFiles then selected
    else
      assert forall k :: |selected| <= k < |selected + chosen| ==> (selected + chosen)[k] in chosen;
      selected + chosen
  }

  /** `prev.filter((_, i) => i !== index)`, element by element. */
  function Without<T>(s: seq<T>, index: int): (r: seq<T>)
    ensures 0 <= index < |s| ==> r == s[..index] + s[index + 1..]
    ensures !(0 <= index < |s|) ==> r == s
  {
    if s == [] then []
    else
      var rest := Without(s[1..], index - 1);
      if index == 0 then
        assert s[..0] + s[1..] == s[1..];
        rest
      else
        assert 0 < index < |s| ==> [s[0]] + (s[1..][..index - 1] + s[1..][index..]) == s[..index] + s[index + 1..] by {
          if 0 < index < |s| {
            assert s[1..][..index - 1] == s[1..index] && s[1..][index..] == s[index + 1..];
            assert [s[0]] + s[1..index] == s[..index];
          }
        }
        assert !(0 < index < |s|) ==> [s[0]] + s[1..] == s;
        [s[0]] + rest
  }

  lemma RemovingKeepsLimits(files: seq<FileInfo>, index: int)
    requires WithinLimits(files)
    ensures WithinLimits(Without(files, index))
    ensures 0 <= index < |files| ==> |Without(files, index)| == |files| - 1
  {
    var r := Without(files, index);
    if 0 <= index < |files| {
      forall k | 0 <= k < |r| ensures r[k].size <= MaxFileSize {
        if k < index { assert r[k] == files[k]; } else { assert r[k] == files[k + 1]; }
      }
    }
  }

  // ------------------------------------------------------------ sending

  datatype Uploaded = Uploaded(originalname: string, path: string)

  /** What `sendMessage` is given. */
  datatype Outgoing = Outgoing(content: string, msgType: MsgType, file: Option<string>, encryptedContent: string)

  function FileMessage(u: Uploaded, encrypt: string -> string): Outgoing {
    Outgoing(u.originalname, FileType(u.originalname), Some(u.path), encrypt(u.path))
  }

  function TextMessage(text: string, encrypt: string -> string): Outgoing {
    Outgoing(text, Text, None, encrypt(text))
  }

  /** One message per uploaded file, in the order the server lists them. */
  function FileMessages(us: seq<Uploaded>, encrypt: string -> string): (r: seq<Outgoing>)
    ensures |r| == |us|
    ensures forall k :: 0 <= k < |us| ==> r[k] == FileMessage(us[k], encrypt)
  {
    if us == [] then [] else [FileMessage(us[0], encrypt)] + FileMessages(us[1..], encrypt)
  }

  /** Everything one send posts, in order: with files, a message per file
      and then the text if it is not blank; without files, the text alone.
      The text goes out as typed, untrimmed; `message.trim()` is empty
      exactly when the text is all white space (`TrimEmptyIffAllSpace`). */
  function SendPlan(text: string, withFiles: bool, us: seq<Uploaded>, encrypt: string -> string): (r: seq<Outgoing>)
    ensures r == [] <==> withFiles && |us| == 0 && AllSpace(text)
  {
    if withFiles then
      FileMessages(us, encrypt) + (if !AllSpace(text) then [TextMessage(text, encrypt)] else [])
    else [TextMessage(text, encrypt)]
  }

  /** What the plan promises: files first, each with its stored path and its
      classified type; the text last, exactly once unless it is blank. */
  lemma SendPlanShape(text: string, withFiles: bool, us: seq<Uploaded>, encrypt: string -> string)
    ensures var r := SendPlan(text, withFiles, us, encrypt);
      && (withFiles ==> |r| == |us| + (if !AllSpace(text) then 1 else 0))
      && (withFiles ==> forall k :: 0 <= k < |us| ==>
            r[k].file == Some(us[k].path) && r[k].msgType == FileType(us[k].originalname) && r[k].msgType != Text)
      && (forall k :: 0 <= k < |r| ==> (r[k].msgType == Text <==> r[k].file.None?))
      && ((!withFiles || !AllSpace(text)) <==> TextMessage(text, encrypt) in r)
  {
    var r := SendPlan(text, withFiles, us, encrypt);
    if withFiles {
      var fs := FileMessages(us, encrypt);
      assert forall k :: 0 <= k < |fs| ==> fs[k].file.Some?;
      if AllSpace(text) {
        assert r == fs;
        assert forall k :: 0 <= k < |r| ==> r[k] != TextMessage(text, encrypt);
      } else {
        assert r[|fs|] == TextMessage(text, encrypt);
      }
    }
  }

  /** How many posts go through when the post numbered `failsAt` (from 0)
      throws; the loop stops at the first failure. */
  function Reached(failsAt: Option<nat>, n: nat): (k: nat)
    ensures k <= n
    ensures k < n <==> failsAt.Some? && failsAt.value < n
  {
    if failsAt.Some? && failsAt.value < n then failsAt.value else n
  }

  /** The send button and Ctrl+Enter do nothing for a blank text with no
      files, with no one signed in, or while an upload is in flight. */
  predicate Blocked(text: string, selected: seq<FileInfo>, signedIn: bool, uploading: bool)
    ensures Blocked(text, selected, signedIn, uploading) <==>
      (Trim(text) == "" && |selected| == 0) || !signedIn || uploading
  {
    TrimEmptyIffAllSpace(text);
    (AllSpace(text) && |selected| == 0) || !signedIn || uploading
  }

  datatype SendOutcome = Ignored | UploadFailed | SendFailed(at: nat) | Sent

  class Composer {
    var message: string
    var selected: seq<FileInfo>
    var uploading: bool
    /** Whether a typing timeout was ever scheduled: the handler clears the
        timer but never resets the reference. */
    var typingTimer: bool
    /** The messages handed to `sendMessage`, and the typing statuses sent. */
    var sent: seq<Outgoing>
    var typingSent: seq<bool>

    ghost predicate Valid()
      reads this`selected
    {
      WithinLimits(selected)
    }

    constructor()
      ensures message == "" && selected == [] && !uploading && !typingTimer
      ensures sent == [] && typingSent == []
      ensures Valid()
    {
      message, selected, uploading, typingTimer := "", [], false, false;
      sent, typingSent := [], [];
    }

    /** The text input's change handler: the new text, then a typing status
        and a fresh 3-second timer. */
    method Type(text: string)
      modifies this`message, this`typingTimer, this`typingSent
      ensures message == text && typingTimer
      ensures typingSent == old(typingSent) + [true]
    {
      message := text;
      typingTimer := true;
      typingSent := typingSent + [true];
    }

    method FileChange(chosen: seq<FileInfo>)
      modifies this`selected
      ensures selected == AfterFileChange(old(selected), chosen)
      ensures old(Valid()) ==> Valid()
    {
      selected := AfterFileChange(selected, chosen);
    }

    method RemoveFile(index: int)
      modifies this`selected
      ensures selected == Without(old(selected), index)
      ensures old(Valid()) ==> Valid()
    {
      if WithinLimits(selected) {
        RemovingKeepsLimits(selected, index);
      }
      selected := Without(selected, index);
    }

    /** The cleanup run when the input unmounts: the pending timeout is
        cancelled, so its stop-typing status is never sent, and the upload
        flag and the selection are reset. */
    method Unmount()
      modifies this`uploading, this`selected
      ensures !uploading && selected == []
      ensures Valid()
    {
      uploading, selected := false, [];
    }

    /** `handleSendMessage`. The upload's answer is a parameter (`None` when
        the response is not ok), and so is the index of the first post that
        throws. Every path that gets past the guard ends with the upload
        flag down; on success the text is cleared, the selection emptied,
        and, if a typing timer was ever set, a stop-typing status sent. A
        failure keeps the text and the selection, and the posts made before
        it stay made. */
    method HandleSendMessage(signedIn: bool, upload: Option<seq<Uploaded>>,
                             encrypt: string -> string, failsAt: Option<nat>)
      returns (outcome: SendOutcome)
      modifies this`message, this`selected, this`uploading, this`sent, this`typingSent
      ensures outcome.Ignored? <==> Blocked(old(message), old(selected), signedIn, old(uploading))
      ensures outcome.Ignored? ==>
        && message == old(message) && selected == old(selected) && uploading == old(uploading)
        && sent == old(sent) && typingSent == old(typingSent)
      ensures !outcome.Ignored? ==> !uploading
      ensures outcome.UploadFailed? <==>
        !Blocked(old(message), old(selected), signedIn, old(uploading)) && |old(selected)| > 0 && upload.None?
      ensures outcome.UploadFailed? || outcome.SendFailed? ==>
        message == old(message) && selected == old(selected) && typingSent == old(typingSent)
      ensures outcome.SendFailed? || outcome.Sent? ==>
        var plan := SendPlan(old(message), |old(selected)| > 0, upload.GetOr([]), encrypt);
        && sent == old(sent) + plan[..Reached(failsAt, |plan|)]
        && (outcome.Sent? <==> Reached(failsAt, |plan|) == |plan|)
        && (outcome.SendFailed? ==> outcome.at == failsAt.value)
      ensures outcome.UploadFailed? ==> sent == old(sent)
      ensures outcome.Sent? ==>
        && message == "" && selected == []
        && typingSent == old(typingSent) + (if typingTimer then [false] else [])
      ensures old(Valid()) ==> Valid()
    {
      if Blocked(message, selected, signedIn, uploading) {
        return Ignored;
      }
      var withFiles := |selected| > 0;
      if withFiles {
        uploading := true;
        if upload.None? {
          uploading := false;
          return UploadFailed;
        }
      }
      var plan := SendPlan(message, withFiles, upload.GetOr([]), encrypt);
      var n := Reached(failsAt, |plan|);
      Post(plan, n);
      uploading := false;
      if n < |plan| {
        return SendFailed(n);
      }
      Finish();
      outcome := Sent;
    }

    /** The `for ... of` loop of posts: the first `n` messages of the plan
        are handed to `sendMessage`, in order. */
    method Post(plan: seq<Outgoing>, n: nat)
      requires n <= |plan|
      modifies this`sent
      ensures sent == old(sent) + plan[..n]
    {
      var i := 0;
      while i < n
        invariant 0 <= i <= n
        invariant sent == old(sent) + plan[..i]
      {
        sent := sent + [plan[i]];
        assert plan[..i + 1] == plan[..i] + [plan[i]];
        i := i + 1;
      }
    }

    /** The success path's last steps: the selection and the text cleared,
        and a stop-typing status if a timer was ever set. */
    method Finish()
      modifies this`message, this`selected, this`typingSent
      ensures message == "" && selected == []
      ensures typingSent == old(typingSent) + (if typingTimer then [false] else [])
    {
      selected := [];
      message := "";
      if typingTimer {
        typingSent := typingSent + [false];
      }
    }
  }
}
