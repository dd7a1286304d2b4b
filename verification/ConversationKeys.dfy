// The keys of the objects of a conversation, and what a listing makes of them.
module ConversationKeys {
  import opened Conversations

  predicate SlashFree(s: string) {
    '/' !in s
  }

  // Timestamps that name a message file of their own.
  predicate PlainTimestamp(ts: string) {
    SlashFree(ts) && ts != "metadata" && ts != "cost"
  }

  // The layout: one directory for each conversation, and in it the metadata file, the cost file
  // and a file for each timestamp.
  lemma KeyLayout(id: string, ts: string)
    ensures MetadataKey(id) == "conversations/" + id + "/metadata.json"
    ensures CostKey(id) == "conversations/" + id + "/cost.json"
    ensures MessageKey(id, ts) == "conversations/" + id + "/" + ts + ".json"
    ensures ConversationDir(id) == "conversations/" + id + "/"
  {
    assert "/" + "metadata.json" == "/metadata.json" && "/" + "cost.json" == "/cost.json";
    assert "conversations/" + id + "/" + "metadata.json" == "conversations/" + id + ("/" + "metadata.json");
    assert "conversations/" + id + "/" + "cost.json" == "conversations/" + id + ("/" + "cost.json");
  }

  // What is listed of a name: all of it, or the part up to and including its first slash.
  lemma {:induction false} UpToSlashMeaning(s: string)
    ensures '/' !in s ==> UpToSlash(s) == s
    ensures forall i :: 0 <= i < |s| && s[i] == '/' && '/' !in s[..i] ==> UpToSlash(s) == s[..i + 1]
  {
    if s != "" && s[0] != '/' {
      UpToSlashMeaning(s[1..]);
      assert s == [s[0]] + s[1..];
      forall i | 0 <= i < |s| && s[i] == '/' && '/' !in s[..i]
        ensures UpToSlash(s) == s[..i + 1]
      {
        assert s[..i] == [s[0]] + s[1..][..i - 1] && s[..i + 1] == [s[0]] + s[1..][..i];
        assert forall c :: c in s[1..][..i - 1] ==> c in s[..i];
      }
    } else if s != "" {
      forall i | 0 < i < |s|
        ensures '/' in s[..i]
      {
        assert s[..i][0] == '/';
      }
    }
  }

  // A listing shows exactly the names of its objects cut at the next slash.
  lemma ListedNames(objects: Objects, prefix: string, name: string)
    ensures name in Children(objects, prefix) <==>
      exists key :: key in objects && prefix <= key && name == prefix + UpToSlash(key[|prefix|..])
  {
    if name in Children(objects, prefix) {
      var key :| key in objects && prefix <= key && name == Child(prefix, key);
    }
    if key :| key in objects && prefix <= key && name == prefix + UpToSlash(key[|prefix|..]) {
      assert Child(prefix, key) == name;
    }
  }

  lemma {:induction false} UpToSlashFree(s: string)
    ensures SlashFree(s) ==> UpToSlash(s) == s
    ensures !SlashFree(s) ==> UpToSlash(s) != "" && UpToSlash(s)[|UpToSlash(s)| - 1] == '/'
  {
    if s != "" {
      UpToSlashFree(s[1..]);
    }
  }

  lemma MessageKeyParts(id: string, ts: string)
    ensures ConversationDir(id) <= MessageKey(id, ts)
    ensures MessageKey(id, ts)[|ConversationDir(id)|..] == ts + ".json"
    ensures SlashFree(ts) <==> SlashFree(ts + ".json")
  {
    assert MessageKey(id, ts) == ConversationDir(id) + (ts + ".json");
    assert forall c :: c in ts + ".json" <==> c in ts || c in ".json";
  }

  lemma SuffixCancels(a: string, b: string)
    requires a + ".json" == b + ".json"
    ensures a == b
  {
    assert |a| == |b|;
    assert a == (a + ".json")[..|a|] && b == (b + ".json")[..|b|];
  }

  lemma MessageKeyInjective(id: string, a: string, b: string)
    ensures MessageKey(id, a) == MessageKey(id, b) ==> a == b
    ensures MessageKey(id, a) == MetadataKey(id) ==> a == "metadata"
    ensures MessageKey(id, a) == CostKey(id) ==> a == "cost"
    ensures MetadataKey(id) != CostKey(id)
  {
    MessageKeyParts(id, a);
    MessageKeyParts(id, b);
    MessageKeyParts(id, "metadata");
    MessageKeyParts(id, "cost");
    assert MessageKey(id, "metadata") == MetadataKey(id) by { assert "metadata" + ".json" == "metadata.json"; }
    assert MessageKey(id, "cost") == CostKey(id) by { assert "cost" + ".json" == "cost.json"; }
    if a + ".json" == b + ".json" { SuffixCancels(a, b); }
    if a + ".json" == "metadata" + ".json" { SuffixCancels(a, "metadata"); }
    if a + ".json" == "cost" + ".json" { SuffixCancels(a, "cost"); }
    assert "metadata" + ".json" != "cost" + ".json" by { assert |"metadata"| != |"cost"|; }
  }

  lemma DirOfKeys(id: string)
    ensures ConversationDir(id) <= MetadataKey(id) && ConversationDir(id) <= CostKey(id)
  {
  }

  lemma MetadataTimestamp(id: string)
    ensures MessageKey(id, "metadata") == MetadataKey(id)
  {
    assert "metadata" + ".json" == "metadata.json";
  }

  lemma CostTimestamp(id: string)
    ensures MessageKey(id, "cost") == CostKey(id)
  {
    assert "cost" + ".json" == "cost.json";
  }

  // What a listing shows has no slash, except perhaps at its end.
  lemma {:induction false} OneSlashAtMost(s: string)
    ensures var t := UpToSlash(s); t != "" && t[|t| - 1] != '/' ==> SlashFree(t)
  {
    if s != "" && s[0] != '/' {
      OneSlashAtMost(s[1..]);
      var t := UpToSlash(s[1..]);
      assert t != "" ==> ([s[0]] + t)[|t|] == t[|t| - 1];
    }
  }

  // A key under the directory whose rest has no slash is its own child.
  lemma ChildOfFile(dir: string, name: string)
    requires SlashFree(name)
    ensures Child(dir, dir + name) == dir + name
  {
    assert (dir + name)[|dir|..] == name;
    UpToSlashFree(name);
  }

  lemma MessageName(id: string, ts: string)
    ensures IsMessageName(ConversationDir(id), MessageKey(id, ts)) <==> ts != "metadata" && ts != "cost"
  {
    MessageKeyParts(id, ts);
    assert "metadata.json" == "metadata" + ".json" && "cost.json" == "cost" + ".json";
    if ts + ".json" == "metadata" + ".json" { SuffixCancels(ts, "metadata"); }
    if ts + ".json" == "cost" + ".json" { SuffixCancels(ts, "cost"); }
  }

  // The keys of different conversations are different.
  lemma DirsDisjoint(id1: string, id2: string, key: string)
    requires SlashFree(id1) && SlashFree(id2)
    requires ConversationDir(id1) <= key && ConversationDir(id2) <= key
    ensures id1 == id2
  {
    var n := |"conversations/"|;
    var rest := key[n..];
    assert ConversationDir(id1) == "conversations/" + (id1 + "/");
    assert ConversationDir(id2) == "conversations/" + (id2 + "/");
    assert rest[..|id1|] == id1 && rest[|id1|] == '/' by {
      assert forall i :: 0 <= i <= |id1| ==> rest[i] == ConversationDir(id1)[n + i];
    }
    assert rest[..|id2|] == id2 && rest[|id2|] == '/' by {
      assert forall i :: 0 <= i <= |id2| ==> rest[i] == ConversationDir(id2)[n + i];
    }
    assert forall i :: 0 <= i < |id1| ==> id1[i] in id1 && rest[i] == id1[i];
    assert forall i :: 0 <= i < |id2| ==> id2[i] in id2 && rest[i] == id2[i];
  }
}
