/** What every listing says about a session's state. */
module Sessions {
  import opened Basics

  datatype BackendKind = Codex | Claude | Grok

  datatype Status = Working | NeedsInput(reason: Option<string>) | Idle | Done | Error | Unknown
}
