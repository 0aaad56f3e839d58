/** `AskLLMWorker`: answers one question about one file, by sending the
    file's first 2000 characters and the question to the completion
    endpoint. The file is any path the window's file list offers: a `*.txt`
    file under the home directory or under the data directory, by its full
    path. */
module Ask {
  import opened Wrappers
  import opened Text
  import opened Store
  import opened Completion

  const ContextLength: nat := 2000
  const MaxTokens: nat := 400

  /** The prompt for an excerpt of the file and a question. */
  function Prompt(excerpt: string, question: string): string {
    "Context:\n" + excerpt + "\n\nQuestion: " + question + "\nAnswer:"
  }

  /** The prompt holds the excerpt right after the nine characters of
      `Context:\n`, the question right after the twelve of
      `\n\nQuestion: ` that follow it, and `\nAnswer:` at its end; so the
      excerpt and the question can be read back from it. */
  lemma PromptLayout(excerpt: string, question: string)
    ensures var p := Prompt(excerpt, question);
            |p| == |excerpt| + |question| + 29 &&
            OccursAt(p, "Context:\n", 0) &&
            OccursAt(p, excerpt, 9) &&
            OccursAt(p, "\n\nQuestion: ", 9 + |excerpt|) &&
            OccursAt(p, question, 21 + |excerpt|) &&
            EndsWith(p, "\nAnswer:")
  {
    var p := Prompt(excerpt, question);
    var e := 9 + |excerpt|;
    var q := 21 + |excerpt|;
    assert p[..9] == "Context:\n";
    assert p[9..e] == excerpt;
    assert p[e..q] == "\n\nQuestion: ";
    assert p[q..q + |question|] == question;
    assert p[|p| - 8..] == "\nAnswer:";
  }

  /** The request posted for `path`, `disk` being every readable file by
      its full path: none when the file cannot be read. */
  function AskRequest(disk: Files, path: string, question: string): Option<Request> {
    if path in disk then Some(Request(Prompt(Take(disk[path].content, ContextLength), question), MaxTokens, None))
    else None
  }

  /** The text of the error raised when the file does not exist. */
  function NoSuchFile(path: string): string {
    "[Errno 2] No such file or directory: '" + path + "'"
  }

  /** The one message a run emits. */
  function AnswerText(disk: Files, path: string, reply: Reply): string {
    if path !in disk then ErrorText(NoSuchFile(path))
    else match reply
      case Ok(content) => Answer(content)
      case Failed(e) => ErrorText(e)
  }

  /** A successful run emits the stripped reply, which neither starts nor
      ends with whitespace; any failure emits an error report. */
  lemma AnswerKinds(disk: Files, path: string, reply: Reply)
    ensures path in disk && reply.Ok? ==>
              AnswerText(disk, path, reply) == Strip(reply.content) &&
              Strip(AnswerText(disk, path, reply)) == AnswerText(disk, path, reply)
    ensures !(path in disk && reply.Ok?) ==>
              Marked(Cross, "Error: ") <= AnswerText(disk, path, reply)
  {
    if path !in disk {
      assert AnswerText(disk, path, reply) == ErrorText(NoSuchFile(path));
      ErrorTextPrefix(NoSuchFile(path));
    } else if reply.Failed? {
      assert AnswerText(disk, path, reply) == ErrorText(reply.reason);
      ErrorTextPrefix(reply.reason);
    } else {
      assert AnswerText(disk, path, reply) == Strip(reply.content);
      StripProperties(reply.content);
    }
  }

  /** A file of the data directory, chosen by the full path the file list
      gives it, is read from the data directory: its first 2000 characters
      are sent, and the answer is the one for a readable file. */
  lemma AskDataFile(disk: Files, dir: string, files: Files, name: string, question: string, reply: Reply)
    requires Mounted(disk, dir, files) && name in files
    ensures AskRequest(disk, PathOf(dir, name), question) ==
            Some(Request(Prompt(Take(files[name].content, ContextLength), question), MaxTokens, None))
    ensures AnswerText(disk, PathOf(dir, name), reply) ==
            match reply
              case Ok(content) => Answer(content)
              case Failed(e) => ErrorText(e)
  {
  }

  lemma ErrorTextPrefix(reason: string)
    ensures Marked(Cross, "Error: ") <= ErrorText(reason)
  {
    var head := "[" + Cross + "] ";
    assert Marked(Cross, "Error: ") == head + "Error: ";
    assert ErrorText(reason) == (head + "Error: ") + reason;
  }

  class AskWorker {
    var filePath: Option<string>
    var question: Option<string>
    var runQuery: bool
    var emitted: seq<Signal>

    /** A query is only ever run once one has been set. */
    ghost predicate Valid()
      reads this
    {
      runQuery ==> filePath.Some? && question.Some?
    }

    constructor ()
      ensures Valid() && filePath == None && question == None && !runQuery && emitted == []
    {
      filePath := None;
      question := None;
      runQuery := false;
      emitted := [];
    }

    /** `set_query(file_path, question)` */
    method SetQuery(path: string, q: string)
      modifies this
      ensures Valid()
      ensures filePath == Some(path) && question == Some(q) && runQuery && emitted == old(emitted)
    {
      filePath := Some(path);
      question := Some(q);
      runQuery := true;
    }

    /** `run()`: with no query set, does nothing; otherwise reads the file
        (`disk` is every readable file by its full path, at the time of the
        run), posts the prompt (`reply` is what comes back) and emits exactly
        one message. The query stays set, so a later run asks it again. */
    method Run(disk: Files, reply: Reply) returns (posted: Option<Request>)
      requires Valid()
      modifies this
      ensures Valid()
      ensures filePath == old(filePath) && question == old(question) && runQuery == old(runQuery)
      ensures !runQuery ==> posted == None && emitted == old(emitted)
      ensures runQuery ==>
        posted == AskRequest(disk, filePath.value, question.value) &&
        emitted == old(emitted) + [AnswerReady(AnswerText(disk, filePath.value, reply))]
    {
      posted := None;
      if !runQuery {
        return;
      }
      var path := filePath.value;
      if path !in disk {
        emitted := emitted + [AnswerReady(ErrorText(NoSuchFile(path)))];
        return;
      }
      var content := Take(disk[path].content, ContextLength);
      var prompt := "Context:\n" + content + "\n\nQuestion: " + question.value + "\nAnswer:";
      posted := Some(Request(prompt, MaxTokens, None));
      match reply {
        case Ok(c) =>
          emitted := emitted + [AnswerReady(Strip(c))];
        case Failed(e) =>
          emitted := emitted + [AnswerReady(ErrorText(e))];
      }
    }
  }
}
