/** The per-user session and the command handlers that read and change it. The
    chat transport is reduced to the handler's argument (the message text or the
    parsed index) and its result (the reply text, or the outputs to forward). */
module Bot {
  import opened Wrappers
  import opened Text
  import opened Runner
  import opened Commands

  const StartReply := "Use the command /awk to add a new awk script!"
  const RejectedReply := "Error! The command was not added.\n"
  const AddedReply := "Your command has been added successfully!"
  const InvalidIndexReply := "Please enter a valid index."
  const ClearedReply := "All scripts have been cleared."

  /** The reply to a successful `/del`. */
  function DeletedReply(index: nat): (reply: string)
    ensures |reply| == |NatToString(index)| + 17
    ensures reply[..8] == "Command " && reply[|reply| - 9..] == " deleted!"
    ensures reply[8..|reply| - 9] == NatToString(index)
  {
    "Command " + NatToString(index) + " deleted!"
  }

  /** A user's stored session record. A record read back from storage may lack
      its `scripts` list, hence the option. */
  class Session {
    var scripts: Option<seq<string>>

    constructor (scripts: Option<seq<string>>)
      ensures this.scripts == scripts
    {
      this.scripts := scripts;
    }
  }

  /** The part of the bot's context that the handlers use: the session, which is
      missing until something creates it. */
  class BotContext {
    var session: Session?

    constructor (session: Session?)
      ensures this.session == session
    {
      this.session := session;
    }

    /** The user's script list as the handlers see it: a missing session, or a
        session without a list, stands for the empty list. */
    function Scripts(): (scripts: seq<string>)
      reads this, session
    {
      if session == null then []
      else match session.scripts
        case None => []
        case Some(s) => s
    }

    /** `session ??= { scripts: [] }; session.scripts ??= []`: afterwards a session
        with a list exists, its list being what `Scripts()` showed before. An
        existing session object is kept, and its list too when it had one. */
    method EnsureScripts()
      modifies this, session
      ensures session != null && session.scripts == Some(old(Scripts()))
      ensures old(session) != null ==> session == old(session)
      ensures old(session) == null ==> fresh(session)
      ensures old(session) != null && old(session.scripts).Some? ==> session.scripts == old(session.scripts)
    {
      if session == null {
        session := new Session(Some([]));
      }
      if session.scripts.None? {
        session.scripts := Some([]);
      }
    }

    /** `/start`: creates the session when needed and greets the user. */
    method Start() returns (reply: string)
      modifies this, session
      ensures old(session) != null ==> session == old(session)
      ensures old(session) == null ==> fresh(session)
      ensures session != null && session.scripts == Some(old(Scripts()))
      ensures reply == StartReply
    {
      EnsureScripts();
      reply := StartReply;
    }

    /** `/awk`: the script is taken out of the message and dry-run on empty input
        (`gawk` is the interpreter, `scriptPath` the temporary file the helper
        wrote the script to). A failing dry run leaves the list as it was and
        reports stderr after the helper's strip as written; otherwise the script
        is appended. */
    method AddScript(text: string, gawk: Interpreter, scriptPath: string) returns (reply: string)
      modifies this, session
      ensures session != null && session.scripts.Some?
      ensures old(session) != null ==> session == old(session)
      ensures old(session) == null ==> fresh(session)
      ensures var script := ExtractScript(text);
              var dryRun := Awk(scriptPath, gawk(script, ""));
              if dryRun.err then
                Scripts() == old(Scripts()) && reply == RejectedReply + dryRun.stderr
              else
                Scripts() == old(Scripts()) + [script] && reply == AddedReply
    {
      var script := ExtractScript(text);
      EnsureScripts();
      var dryRun := Awk(scriptPath, gawk(script, ""));
      if dryRun.err {
        reply := RejectedReply + dryRun.stderr;
        return;
      }
      session.scripts := Some(session.scripts.value + [script]);
      reply := AddedReply;
    }

    /** `/all`: the listing of the current scripts; the list itself is untouched. */
    method ListAll() returns (reply: string)
      modifies this, session
      ensures old(session) != null ==> session == old(session)
      ensures old(session) == null ==> fresh(session)
      ensures session != null && session.scripts == Some(old(Scripts()))
      ensures reply == ListingMessage(old(Scripts()))
    {
      EnsureScripts();
      var scripts := session.scripts.value;
      if |scripts| == 0 {
        reply := EmptyListing;
        return;
      }
      reply := FormatScripts(scripts);
    }

    /** `/del`: `index` is the parsed argument, None when it is not a number. An
        index inside the list removes that entry; anything else, and a missing
        session or list (the access throws and the error is swallowed), leaves
        everything as it was and asks for a valid index. No session is created. */
    method Delete(index: Option<int>) returns (reply: string)
      modifies session
      ensures var valid := index.Some? && 0 <= index.value < |old(Scripts())|;
              if valid then
                session.scripts == Some(RemoveAt(old(Scripts()), index.value))
                && reply == DeletedReply(index.value)
              else
                (session != null ==> session.scripts == old(session.scripts))
                && reply == InvalidIndexReply
    {
      if index.Some? && index.value >= 0 {
        if session == null || session.scripts.None? {
          reply := InvalidIndexReply;
          return;
        }
        var scripts := session.scripts.value;
        if index.value < |scripts| {
          session.scripts := Some(RemoveAt(scripts, index.value));
          reply := DeletedReply(index.value);
          return;
        }
      }
      reply := InvalidIndexReply;
    }

    /** `/clear`: the context gets a new session with an empty list, whatever the
        old one held; the old session object itself is not touched. Since the new
        state does not depend on the old one, clearing twice is clearing once. */
    method Clear() returns (reply: string)
      modifies this
      ensures fresh(session) && session.scripts == Some([])
      ensures Scripts() == []
      ensures reply == ClearedReply
    {
      session := new Session(Some([]));
      reply := ClearedReply;
    }

    /** Any other text: every stored script is run once on the message, and the
        stdout of each run that succeeded with output is to be sent back. With no
        scripts nothing is run and nothing is sent. The list is untouched. */
    method OnText(text: string, gawk: Interpreter) returns (calls: seq<Call>, outputs: seq<string>)
      modifies this, session
      ensures old(session) != null ==> session == old(session)
      ensures old(session) == null ==> fresh(session)
      ensures session != null && session.scripts == Some(old(Scripts()))
      ensures |calls| == |old(Scripts())|
      ensures forall i :: 0 <= i < |calls| ==> calls[i] == (old(Scripts())[i], text)
      ensures outputs == Forwarded(Outcomes(calls, gawk))
      ensures |outputs| <= |old(Scripts())|
    {
      EnsureScripts();
      var scripts := session.scripts.value;
      if |scripts| == 0 {
        calls, outputs := [], [];
        return;
      }
      calls, outputs := FanOut(scripts, text, gawk);
    }
  }
}
