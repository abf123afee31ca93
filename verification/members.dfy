/** The room member list built from a `/joined_members` response. */
module Members {
  import opened Wrappers
  import opened JsText

  /** One value of the response's `joined` object. */
  datatype MemberInfo = MemberInfo(displayName: Option<string>, avatarUrl: Option<string>)

  datatype Member = Member(userId: string, displayName: string, avatarUrl: Option<string>)

  /** `info.display_name || userId.split(':')[0].substring(1)`. */
  function DisplayName(userId: string, info: MemberInfo): (n: string)
    ensures Truthy(info.displayName) ==> n == info.displayName.value
    ensures !Truthy(info.displayName) ==> n == Localpart(userId)
    ensures !Truthy(info.displayName) ==> ':' !in n
    ensures !Truthy(info.displayName) && |userId| > 0 && userId[0] != ':' ==>
              1 + |n| <= |userId| && n == userId[1..1 + |n|]
              && (1 + |n| == |userId| || userId[1 + |n|] == ':')
  {
    if Truthy(info.displayName) then info.displayName.value else Localpart(userId)
  }

  /** A member without a display name is shown under the localpart of `@name:server`. */
  lemma DisplayNameFallback(name: string, server: string, info: MemberInfo)
    requires ':' !in name
    requires !Truthy(info.displayName)
    ensures DisplayName("@" + name + ":" + server, info) == name
  {
    LocalpartOfUserId(name, server);
  }

  function ToMember(entry: (string, MemberInfo)): Member {
    Member(entry.0, DisplayName(entry.0, entry.1), entry.1.avatarUrl)
  }

  /** `Object.entries(joined).map(...)`: one member per entry, in entry order. */
  function EntriesToMembers(entries: seq<(string, MemberInfo)>): (r: seq<Member>)
    ensures |r| == |entries|
    ensures forall i :: 0 <= i < |r| ==>
              && r[i].userId == entries[i].0
              && r[i].displayName == DisplayName(entries[i].0, entries[i].1)
              && r[i].avatarUrl == entries[i].1.avatarUrl
  {
    if |entries| == 0 then [] else [ToMember(entries[0])] + EntriesToMembers(entries[1..])
  }

  /** The member list for a response whose `joined` field may be missing. */
  function MembersOf(joined: Option<seq<(string, MemberInfo)>>): (r: seq<Member>)
    ensures joined.None? ==> r == []
    ensures joined.Some? ==> |r| == |joined.value|
    ensures joined.Some? ==> forall i :: 0 <= i < |r| ==>
              && r[i].userId == joined.value[i].0
              && r[i].displayName == DisplayName(joined.value[i].0, joined.value[i].1)
              && r[i].avatarUrl == joined.value[i].1.avatarUrl
  {
    EntriesToMembers(joined.GetOr([]))
  }
}
