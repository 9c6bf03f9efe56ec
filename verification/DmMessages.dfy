/** Stored direct messages, and the envelope the retry worker rebuilds from them. */
module DmMessages {
  import opened Bytes

  type Id = nat
  type Key = nat

  /** The JSON of the two kinds of sealed envelope, as one version of the code
      writes and reads it. */
  type Sealed = nat
  datatype Json = Json(
    encode: Sealed -> string,
    parseDirect: string -> Option<Sealed>,
    parseGroup: string -> Option<Sealed>)

  /** A row of `dm_messages`; `ciphertext` is the column of that name. */
  datatype Message = Message(conv: Id, sender: Key, content: Option<string>,
                             isEncrypted: bool, isGroupEncrypted: bool, ciphertext: Option<string>)

  /** `conversations` with their type, and `conversation_members`. */
  datatype Tables = Tables(messages: map<Id, Message>, convs: map<Id, string>, members: set<(Id, Key)>)

  datatype FederatedDm = FederatedDm(id: Id, conv: Id, convType: string, sender: Key, members: set<Key>,
                                     content: Option<string>, direct: Option<Sealed>, group: Option<Sealed>)

  datatype Loaded = Ready(dm: FederatedDm) | Gone | Unreadable | DbError

  function Roster(t: Tables, conv: Id): set<Key> {
    set m | m in t.members && m.0 == conv :: m.1
  }

  /** One of the two sealed columns: `None` when what is flagged cannot be read. */
  function Reopened(flag: bool, ciphertext: Option<string>, parse: string -> Option<Sealed>): Option<Option<Sealed>> {
    if !flag then Some(None)
    else if ciphertext.None? then None
    else
      match parse(ciphertext.value)
      case None => None
      case Some(e) => Some(Some(e))
  }

  /** `load_envelope`. The conversation is fetched as a row that must exist. */
  function LoadEnvelope(t: Tables, j: Json, id: Id): Loaded {
    if id !in t.messages then Gone
    else
      var m := t.messages[id];
      if m.conv !in t.convs then DbError
      else
        match Reopened(m.isEncrypted, m.ciphertext, j.parseDirect)
        case None => Unreadable
        case Some(direct) =>
          match Reopened(m.isGroupEncrypted, m.ciphertext, j.parseGroup)
          case None => Unreadable
          case Some(group) =>
            Ready(FederatedDm(id, m.conv, t.convs[m.conv], m.sender, Roster(t, m.conv), m.content, direct, group))
  }

  /** The message is there and its conversation is not. */
  predicate Orphaned(t: Tables, id: Id) {
    id in t.messages && t.messages[id].conv !in t.convs
  }

  /** The flagged envelope is missing or refused by the parser. */
  predicate Garbled(m: Message, j: Json) {
    || (m.isEncrypted && (m.ciphertext.None? || j.parseDirect(m.ciphertext.value).None?))
    || (m.isGroupEncrypted && (m.ciphertext.None? || j.parseGroup(m.ciphertext.value).None?))
  }

  /** When loading ends how, in terms of the tables. */
  lemma LoadMeans(t: Tables, j: Json, id: Id)
    ensures LoadEnvelope(t, j, id).Gone? <==> id !in t.messages
    ensures LoadEnvelope(t, j, id).DbError? <==> Orphaned(t, id)
    ensures LoadEnvelope(t, j, id).Unreadable? <==>
            id in t.messages && !Orphaned(t, id) && Garbled(t.messages[id], j)
  {
  }
}
