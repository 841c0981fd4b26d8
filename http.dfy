/** What the Express handlers of server.js and lib/auth-routes.js share: the session, the
    response bodies they send, and the truthiness test they apply to request fields. */
module Http {
  import opened Wrappers
  import opened PromptXml
  import opened Store
  import opened SavedPrompts

  /** `req.session`: the logged-in user's id, if any. */
  class Session {
    var userId: Option<nat>

    constructor ()
      ensures userId.None?
    {
      userId := None;
    }
  }

  /** The fields of a user a response may carry: never the password hash. */
  datatype PublicUser = PublicUser(id: nat, username: string, email: string, displayName: string)

  function Public(u: User): PublicUser {
    PublicUser(u.id, u.username, u.email, u.displayName)
  }

  /** An entry of the key list: the key's name, its masked preview and the row's `updated_at`. */
  datatype KeyInfo = KeyInfo(keyName: string, preview: string, updatedAt: string)

  /** An entry of the public list, with its author's display name and username. */
  datatype PublicEntry = PublicEntry(id: nat, description: string, formData: FormData, createdAt: string,
                                     authorDisplayName: string, authorUsername: string)

  datatype Body =
    | Error(message: string)
    | Account(user: PublicUser)
    | Message(text: string)
    | Ok
    | Visibility(isPublic: bool)
    | Keys(keys: seq<KeyInfo>)
    | Prompts(prompts: seq<SavedPrompt>)
    | Created(prompt: SavedPrompt)
    | Entries(entries: seq<PublicEntry>)
    | Crash  // an exception no handler catches: Express's default error page

  datatype Response = Response(status: nat, body: Body)

  /** requireAuth's refusal. */
  const NotAuthenticated := Response(401, Error("Not authenticated"))

  /** The answer of Express's default error handler. */
  const Crashed := Response(500, Crash)

  /** A request field is truthy when it is present and not empty. */
  predicate Given(x: Option<string>) {
    x.Some? && x.value != ""
  }
}
