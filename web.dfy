/**
 * What a request handler hands back to the web framework, and the side
 * effects the command handlers ask the operating system for.
 */
module Web {
  import opened Wrappers
  import opened Posix

  datatype Reply =
    | NoContent                                        // ("", 204)
    | Abort(code: nat)                                 // abort(code), or (text, code)
    | SendFile(name: string, data: seq<byte>, attachment: bool)
    | DirListing(path: string, items: seq<Entry>)      // jsonify(path=…, items=…)
    | ItemList(items: seq<Entry>)                      // jsonify([…])
    | Lines(lines: seq<string>)                        // jsonify(lines), a bare JSON array
    | LogsField(lines: seq<string>)                    // jsonify({'logs': lines})

  /** The effect of a power command: launch a program, or call LockWorkStation directly. */
  datatype Effect = Spawn(argv: seq<string>) | LockWorkStation

  /** A command handler's reply, and the effect it launched, if any. */
  datatype Handled = Handled(reply: Reply, effect: Option<Effect>)
}
