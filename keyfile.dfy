/**
 * Reading one NetworkManager keyfile from `system-connections`: the network
 * name is the first `(?:ssid|id)=(.+)` group and the password the first
 * `psk=(.+)` group, both stripped. Paired with the `key=value` text such a
 * file holds, and a lemma that reading it gives the credential back.
 */
module Keyfile {
  import opened Text
  import opened Records
  import opened Patterns

  const SsidPattern: Pattern := Assign(["ssid", "id"])
  const PskPattern: Pattern := Assign(["psk"])

  /**
   * One keyfile read: no credential when `(?:ssid|id)=(.+)` matches nowhere;
   * otherwise the first such group, stripped, with the first `psk=(.+)` group,
   * stripped, or `None`.
   */
  function KeyfileCredential(content: string): (c: Option<Credential>)
    ensures c.None? <==> Search(Regex(SsidPattern), content).None?
    ensures c.Some? ==> Trimmed(c.value.ssid)
    ensures c.Some? ==> (c.value.password.None? <==> Search(Regex(PskPattern), content).None?)
    ensures c.Some? && c.value.password.Some? ==> Trimmed(c.value.password.value)
  {
    match Search(Regex(SsidPattern), content)
    case None => None
    case Some(ssid) =>
      var password := match Search(Regex(PskPattern), content)
                      case None => None
                      case Some(psk) => Some(Strip(psk));
      Some(Credential(Strip(ssid), password))
  }

  /** One `key=value` line of a keyfile, with its newline. */
  function AssignLine(key: string, value: string): string {
    key + "=" + value + "\n"
  }

  /** The first key of a list matches a `key=value` line. */
  lemma AssignFirstMatches(keys: seq<string>, key: string, v: string, tail: string)
    requires keys != [] && key == keys[0] + "=" && v != [] && '\n' !in v
    requires tail == [] || tail[0] == '\n'
    ensures MatchAt(Assign(keys), key + v + tail) == Some(Match(v, |key| + |v|))
  {
    var s := key + v + tail;
    assert s[..|key|] == key;
    assert s[|key|..] == v + tail;
    IndexOfBefore(v, '\n', tail);
    assert s[|key|..|key| + |v|] == v;
  }

  /** The keys of the two patterns, with their `=`. */
  lemma KeysWithEquals()
    ensures "ssid=" == ["ssid", "id"][0] + "=" && "id=" == ["ssid", "id"][1..][0] + "="
    ensures "psk=" == ["psk"][0] + "="
  {
    assert ["ssid", "id"][1..] == ["id"];
  }

  /** An alternative that is not there at the front leaves the others to be tried. */
  lemma AssignSkipsFirst(keys: seq<string>, s: string)
    requires keys != [] && keys[0] != [] && (s == [] || s[0] != keys[0][0])
    ensures MatchAssign(keys, s) == MatchAssign(keys[1..], s)
  {
  }

  /** A match of `(?:ssid|id)=(.+)` starts with `ssid=` or `id=`. */
  lemma SsidAnchored()
    ensures Anchored(Regex(SsidPattern), ["ssid=", "id="])
  {
    forall t | forall k :: 0 <= k < |["ssid=", "id="]| ==> !StartsWith(t, ["ssid=", "id="][k])
      ensures Regex(SsidPattern)(t).None?
    {
      assert !StartsWith(t, ["ssid=", "id="][0]) && !StartsWith(t, ["ssid=", "id="][1]);
      AssignAnchored(["ssid", "id"], t);
      assert Regex(SsidPattern)(t) == MatchAt(SsidPattern, t);
    }
  }

  /** A match of `psk=(.+)` starts with `psk=`. */
  lemma PskAnchored()
    ensures Anchored(Regex(PskPattern), ["psk="])
  {
    forall t | forall k :: 0 <= k < |["psk="]| ==> !StartsWith(t, ["psk="][k])
      ensures Regex(PskPattern)(t).None?
    {
      assert !StartsWith(t, ["psk="][0]);
      AssignAnchored(["psk"], t);
      assert Regex(PskPattern)(t) == MatchAt(PskPattern, t);
    }
  }

  /** `(?:ssid|id)=(.+)` on an `ssid=` or `id=` line: the group is the value. */
  lemma NameLineMatches(key: string, v: string, tail: string)
    requires key == "ssid=" || key == "id="
    requires v != [] && '\n' !in v
    requires tail == [] || tail[0] == '\n'
    ensures Regex(SsidPattern)(key + v + tail) == Some(Match(v, |key| + |v|))
  {
    var keys := ["ssid", "id"];
    var text := key + v + tail;
    assert Regex(SsidPattern)(text) == MatchAt(SsidPattern, text);
    KeysWithEquals();
    if key == "ssid=" {
      AssignFirstMatches(keys, key, v, tail);
    } else {
      AssignSkipsFirst(keys, text);
      AssignFirstMatches(keys[1..], key, v, tail);
    }
  }

  /** `psk=(.+)` on a `psk=` line: the group is the value. */
  lemma PskLineMatches(v: string, tail: string)
    requires v != [] && '\n' !in v
    requires tail == [] || tail[0] == '\n'
    ensures Regex(PskPattern)("psk=" + v + tail) == Some(Match(v, |"psk="| + |v|))
  {
    var text := "psk=" + v + tail;
    assert Regex(PskPattern)(text) == MatchAt(PskPattern, text);
    KeysWithEquals();
    AssignFirstMatches(["psk"], "psk=", v, tail);
  }

  /** The searched keys are single-line and non-empty. */
  lemma SingleLineNeedles(needles: seq<string>)
    requires needles == ["ssid=", "id="] || needles == ["psk="]
    ensures forall k :: 0 <= k < |needles| ==> needles[k] != [] && '\n' !in needles[k]
  {
  }

  /** The network name comes from line `i`, the first line holding `ssid=` or `id=`. */
  lemma NameFromLine(lines: seq<string>, i: nat, key: string, name: string)
    requires i < |lines| && (key == "ssid=" || key == "id=") && lines[i] == key + name
    requires name != [] && '\n' !in name
    requires forall n :: 0 <= n < i ==> !Contains(lines[n], "ssid=") && !Contains(lines[n], "id=")
    ensures Search(Regex(SsidPattern), Unlines(lines)) == Some(name)
  {
    var needles := ["ssid=", "id="];
    SsidAnchored();
    forall n, k | 0 <= n < i && 0 <= k < |needles|
      ensures !Contains(lines[n], needles[k])
    {
      if k == 0 { assert needles[k] == "ssid="; } else { assert needles[k] == "id="; }
    }
    NameLineMatches(key, name, "\n" + Unlines(lines[i + 1..]));
    SingleLineNeedles(needles);
    FirstLineFound(Regex(SsidPattern), needles, lines, i, Match(name, |key| + |name|));
  }

  /** The password comes from line `j`, the first line holding `psk=`. */
  lemma PskFromLine(lines: seq<string>, j: nat, k: string)
    requires j < |lines| && lines[j] == "psk=" + k
    requires k != [] && '\n' !in k
    requires forall n :: 0 <= n < j ==> !Contains(lines[n], "psk=")
    ensures Search(Regex(PskPattern), Unlines(lines)) == Some(k)
  {
    PskAnchored();
    PskLineMatches(k, "\n" + Unlines(lines[j + 1..]));
    SingleLineNeedles(["psk="]);
    FirstLineFound(Regex(PskPattern), ["psk="], lines, j, Match(k, |"psk="| + |k|));
  }

  /** Where no line holds `psk=` there is no password. */
  lemma NoPskLine(lines: seq<string>)
    requires forall n :: 0 <= n < |lines| ==> !Contains(lines[n], "psk=")
    ensures Search(Regex(PskPattern), Unlines(lines)).None?
  {
    PskAnchored();
    SingleLineNeedles(["psk="]);
    PskMissesEmpty();
    NoLineFoundOne(Regex(PskPattern), "psk=", lines);
  }

  /** `psk=(.+)` does not match the empty text. */
  lemma PskMissesEmpty()
    ensures Regex(PskPattern)([]).None?
  {
    assert Regex(PskPattern)([]) == MatchAssign(["psk"], []);
  }

  /**
   * A keyfile is read line by line as the two searches see it: the name is
   * the value of the first line holding `ssid=` or `id=` (an `ssid=` or
   * `id=` line), and the password the value of the first line holding
   * `psk=` (a `psk=` line), or `None` when no line holds `psk=`. The two
   * lines may come in either order, with any lines around them.
   */
  lemma KeyfileLinesRead(lines: seq<string>, i: nat, key: string, name: string, psk: Option<string>, j: nat)
    requires i < |lines| && (key == "ssid=" || key == "id=") && lines[i] == key + name
    requires name != [] && Trimmed(name) && '\n' !in name
    requires forall n :: 0 <= n < i ==> !Contains(lines[n], "ssid=") && !Contains(lines[n], "id=")
    requires psk.None? ==> forall n :: 0 <= n < |lines| ==> !Contains(lines[n], "psk=")
    requires psk.Some? ==> j < |lines| && lines[j] == "psk=" + psk.value
                           && psk.value != [] && Trimmed(psk.value) && '\n' !in psk.value
                           && forall n :: 0 <= n < j ==> !Contains(lines[n], "psk=")
    ensures KeyfileCredential(Unlines(lines)) == Some(Credential(name, psk))
  {
    NameFromLine(lines, i, key, name);
    StripTrimmed(name);
    match psk
    case None =>
      NoPskLine(lines);
    case Some(k) =>
      PskFromLine(lines, j, k);
      StripTrimmed(k);
  }

  /** A keyfile holding an `ssid=` line and, when there is a password, a `psk=` line after it. */
  function KeyfileText(ssid: string, psk: Option<string>): string {
    Unlines(["ssid=" + ssid] + (match psk case None => [] case Some(k) => ["psk=" + k]))
  }

  /**
   * A keyfile is read back to the credential it was written from, for an
   * ssid and a key without surrounding whitespace or line breaks and an ssid
   * in which `psk=` does not occur.
   */
  lemma KeyfileRoundTrip(ssid: string, psk: Option<string>)
    requires ssid != [] && Trimmed(ssid) && '\n' !in ssid && !Contains(ssid, "psk=")
    requires psk.Some? ==> psk.value != [] && Trimmed(psk.value) && '\n' !in psk.value
    ensures KeyfileCredential(KeyfileText(ssid, psk)) == Some(Credential(ssid, psk))
  {
    var lines := ["ssid=" + ssid] + (match psk case None => [] case Some(k) => ["psk=" + k]);
    assert lines[0] == "ssid=" + ssid;
    PrefixedLacks("ssid=", ssid, "psk=");
    KeyfileLinesRead(lines, 0, "ssid=", ssid, psk, 1);
  }

  /**
   * The keyfile NetworkManager writes for a WPA-PSK network: a `[connection]`
   * section with `id=`, `uuid=` and `type=`, a `[wifi]` section with the
   * SSID, and a `[wifi-security]` section with the key.
   */
  function NmKeyfileLines(id: string, uuid: string, ssid: string, psk: string): seq<string> {
    ["[connection]", "id=" + id, "uuid=" + uuid, "type=wifi", "",
     "[wifi]", "mode=infrastructure", "ssid=" + ssid, "",
     "[wifi-security]", "key-mgmt=wpa-psk", "psk=" + psk]
  }

  // The literal lines of such a keyfile hold none of the searched keys, one line at a time.
  lemma ConnectionLacksSsid() ensures !Contains("[connection]", "ssid=") { NoPairIn("[connection]", "ssid="); }
  lemma ConnectionLacksId() ensures !Contains("[connection]", "id=") { NoPairIn("[connection]", "id="); }
  lemma ConnectionLacksPsk() ensures !Contains("[connection]", "psk=") { NoFirstIn("[connection]", "psk="); }
  lemma TypeLacksPsk() ensures !Contains("type=wifi", "psk=") { NoPairIn("type=wifi", "psk="); }
  lemma BlankLacksPsk() ensures !Contains("", "psk=") { NoFirstIn("", "psk="); }
  lemma WifiLacksPsk() ensures !Contains("[wifi]", "psk=") { NoFirstIn("[wifi]", "psk="); }
  lemma ModeLacksPsk() ensures !Contains("mode=infrastructure", "psk=") { NoFirstIn("mode=infrastructure", "psk="); }
  lemma SecurityLacksPsk() ensures !Contains("[wifi-security]", "psk=") { NoFirstIn("[wifi-security]", "psk="); }

  lemma KeyMgmtLacksPsk()
    ensures !Contains("key-mgmt=wpa-psk", "psk=")
  {
    NoPairIn("pa-psk", "psk=");
    PrefixedLacks("key-mgmt=w", "pa-psk", "psk=");
    assert "key-mgmt=w" + "pa-psk" == "key-mgmt=wpa-psk";
  }

  /** No line before the key line of such a keyfile holds `psk=`. */
  lemma NmLinesBeforeKey(id: string, uuid: string, ssid: string, psk: string)
    requires !Contains(id, "psk=") && !Contains(uuid, "psk=") && !Contains(ssid, "psk=")
    ensures forall n :: 0 <= n < 11 ==> !Contains(NmKeyfileLines(id, uuid, ssid, psk)[n], "psk=")
  {
    var lines := NmKeyfileLines(id, uuid, ssid, psk);
    forall n | 0 <= n < 11
      ensures !Contains(lines[n], "psk=")
    {
      if n == 0 { assert lines[n] == "[connection]"; ConnectionLacksPsk(); }
      else if n == 1 { assert lines[n] == "id=" + id; PrefixedLacks("id=", id, "psk="); }
      else if n == 2 { assert lines[n] == "uuid=" + uuid; PrefixedLacks("uuid=", uuid, "psk="); }
      else if n == 3 { assert lines[n] == "type=wifi"; TypeLacksPsk(); }
      else if n == 4 || n == 8 { assert lines[n] == ""; BlankLacksPsk(); }
      else if n == 5 { assert lines[n] == "[wifi]"; WifiLacksPsk(); }
      else if n == 6 { assert lines[n] == "mode=infrastructure"; ModeLacksPsk(); }
      else if n == 7 { assert lines[n] == "ssid=" + ssid; PrefixedLacks("ssid=", ssid, "psk="); }
      else if n == 9 { assert lines[n] == "[wifi-security]"; SecurityLacksPsk(); }
      else { assert lines[n] == "key-mgmt=wpa-psk"; KeyMgmtLacksPsk(); }
    }
  }

  /**
   * Such a keyfile reads as the connection's `id` (its `id=` line comes
   * before the `ssid=` line) with its key, when `psk=` occurs in none of the
   * values.
   */
  lemma NmKeyfileRead(id: string, uuid: string, ssid: string, psk: string)
    requires id != [] && Trimmed(id) && '\n' !in id
    requires psk != [] && Trimmed(psk) && '\n' !in psk
    requires !Contains(id, "psk=") && !Contains(uuid, "psk=") && !Contains(ssid, "psk=")
    ensures KeyfileCredential(Unlines(NmKeyfileLines(id, uuid, ssid, psk))) == Some(Credential(id, Some(psk)))
  {
    NmLineShape(id, uuid, ssid, psk);
    NmLinesBeforeId(id, uuid, ssid, psk);
    NmLinesBeforeKey(id, uuid, ssid, psk);
    KeyfileLinesRead(NmKeyfileLines(id, uuid, ssid, psk), 1, "id=", id, Some(psk), 11);
  }

  /** The line before the `id=` line holds neither `ssid=` nor `id=`. */
  lemma NmLinesBeforeId(id: string, uuid: string, ssid: string, psk: string)
    ensures forall n :: 0 <= n < 1 ==>
              !Contains(NmKeyfileLines(id, uuid, ssid, psk)[n], "ssid=") && !Contains(NmKeyfileLines(id, uuid, ssid, psk)[n], "id=")
  {
    NmLineShape(id, uuid, ssid, psk);
    ConnectionLacksSsid();
    ConnectionLacksId();
  }

  /** Such a keyfile has twelve lines: `[connection]`, the `id=` line, and last the `psk=` line. */
  lemma NmLineShape(id: string, uuid: string, ssid: string, psk: string)
    ensures |NmKeyfileLines(id, uuid, ssid, psk)| == 12
    ensures NmKeyfileLines(id, uuid, ssid, psk)[0] == "[connection]"
    ensures NmKeyfileLines(id, uuid, ssid, psk)[1] == "id=" + id
    ensures NmKeyfileLines(id, uuid, ssid, psk)[11] == "psk=" + psk
  {
  }



  /** The two-line keyfile `id=MyNet`, `psk=secret123` reads as that network and key. */
  lemma IdPskExample()
    ensures KeyfileCredential("id=MyNet\npsk=secret123\n") == Some(Credential("MyNet", Some("secret123")))
  {
    var lines := ["id=MyNet", "psk=secret123"];
    IdPskLines();
    ExampleValues();
    PrefixedLacks("id=", "MyNet", "psk=");
    KeyfileLinesRead(lines, 0, "id=", "MyNet", Some("secret123"), 1);
  }

  /** The text of that keyfile, line by line. */
  lemma IdPskLines()
    ensures Unlines(["id=MyNet", "psk=secret123"]) == "id=MyNet\npsk=secret123\n"
  {
    var lines := ["id=MyNet", "psk=secret123"];
    assert lines[1..] == ["psk=secret123"];
    assert lines[1..][1..] == [];
  }

  /** Its two lines split into key and value; the values are single-line, unpadded, and `MyNet` lacks `psk=`. */
  lemma ExampleValues()
    ensures "id=MyNet" == "id=" + "MyNet" && "psk=secret123" == "psk=" + "secret123"
    ensures Trimmed("MyNet") && '\n' !in "MyNet" && !Contains("MyNet", "psk=")
    ensures Trimmed("secret123") && '\n' !in "secret123"
  {
    NoFirstIn("MyNet", "psk=");
  }

  /** The `(?:ssid|id)=` search passes over text with neither an `s` nor an `i` in it. */
  lemma SsidSearchSkips(a: string, rest: string)
    requires 's' !in a && 'i' !in a
    ensures Search(Regex(SsidPattern), a + rest) == Search(Regex(SsidPattern), rest)
  {
    forall i | 0 <= i < |a|
      ensures Regex(SsidPattern)((a + rest)[i..]).None?
    {
      assert (a + rest)[i..][0] == a[i];
      SsidMisses((a + rest)[i..]);
    }
    SearchSkip(Regex(SsidPattern), a, rest);
  }

  /** `(?:ssid|id)=` does not match at a character other than `s` or `i`. */
  lemma SsidMisses(t: string)
    requires t != [] && t[0] != 's' && t[0] != 'i'
    ensures Regex(SsidPattern)(t).None?
  {
    var keys := ["ssid", "id"];
    AssignSkipsFirst(keys, t);
    AssignSkipsFirst(keys[1..], t);
    assert keys[1..][1..] == [];
    assert MatchAt(SsidPattern, t) == MatchAssign(keys, t);
    assert Regex(SsidPattern)(t) == MatchAt(SsidPattern, t);
  }

  /** The `(?:ssid|id)=` search finds the value of a leading `id=` line. */
  lemma IdLineFound(v: string, rest: string)
    requires v != [] && '\n' !in v
    ensures Search(Regex(SsidPattern), AssignLine("id", v) + rest) == Some(v)
  {
    var text := AssignLine("id", v) + rest;
    assert text == "id=" + v + ("\n" + rest);
    NameLineMatches("id=", v, "\n" + rest);
    SearchFront(Regex(SsidPattern), text, Match(v, |"id="| + |v|));
  }

  /**
   * The `(?:ssid|id)=` search is unanchored: in a keyfile whose `uuid=` line
   * comes before its `id=` line, the ssid read is the uuid.
   */
  lemma UuidLineShadowsId(uuid: string, name: string)
    requires uuid != [] && Trimmed(uuid) && '\n' !in uuid
    ensures KeyfileCredential(AssignLine("uuid", uuid) + AssignLine("id", name)).Some?
    ensures KeyfileCredential(AssignLine("uuid", uuid) + AssignLine("id", name)).value.ssid == uuid
  {
    var rest := AssignLine("id", uuid) + AssignLine("id", name);
    assert AssignLine("uuid", uuid) + AssignLine("id", name) == "uu" + rest;
    SsidSearchSkips("uu", rest);
    IdLineFound(uuid, AssignLine("id", name));
    StripTrimmed(uuid);
  }
}
