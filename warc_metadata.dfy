/** The metadata holder for one WARC entry that the ZIP export uses to build file
    names: four nullable string fields with setters and getters, where setting the
    id rewrites it into a file-name-safe form. */
module WarcMetadata {
  import opened Util

  predicate NoSlash(s: string) {
    forall i :: 0 <= i < |s| ==> s[i] != '/'
  }

  /** No two adjacent '=' characters, i.e. no occurrence of "==". */
  predicate NoDoubleEquals(s: string) {
    forall i :: 0 <= i < |s| - 1 ==> !(s[i] == '=' && s[i + 1] == '=')
  }

  function Equals(k: nat): string {
    seq(k, _ => '=')
  }

  /** First step of setId: remove every "==", scanning left to right. */
  function RemoveDoubleEquals(s: string): string {
    ReplaceAll(s, "==", "")
  }

  /** Second step of setId: every '/' becomes '_'. */
  function SlashToUnderscore(s: string): string {
    ReplaceAll(s, "/", "_")
  }

  /** The id that setId stores for the argument `id`. */
  function SanitiseId(id: string): (r: string)
    ensures NoSlash(r) && NoDoubleEquals(r)
  {
    RemovedHasNoDoubleEquals(id);
    SlashToUnderscoreAt(RemoveDoubleEquals(id));
    SlashToUnderscore(RemoveDoubleEquals(id))
  }

  /** Removing "==" keeps a leading character that is not '='. */
  lemma RemovedKeepsHead(t: string)
    requires |t| > 0 && t[0] != '='
    ensures |RemoveDoubleEquals(t)| > 0 && RemoveDoubleEquals(t)[0] == t[0]
  {
    if |t| >= 2 {
      assert t[..2] != "==";
    }
  }

  lemma {:induction false} RemovedHasNoDoubleEquals(s: string)
    ensures NoDoubleEquals(RemoveDoubleEquals(s))
    decreases |s|
  {
    if |s| < 2 {
    } else if s[..2] == "==" {
      RemovedHasNoDoubleEquals(s[2..]);
    } else {
      var rest := RemoveDoubleEquals(s[1..]);
      RemovedHasNoDoubleEquals(s[1..]);
      assert RemoveDoubleEquals(s) == [s[0]] + rest;
      if s[0] == '=' {
        assert s[1] != '=' by { assert s[..2] == [s[0], s[1]]; }
        RemovedKeepsHead(s[1..]);
      }
    }
  }

  /** Replacing '/' by '_' is a character-by-character map. */
  lemma {:induction false} SlashToUnderscoreAt(s: string)
    ensures |SlashToUnderscore(s)| == |s|
    ensures forall i :: 0 <= i < |s| ==>
      SlashToUnderscore(s)[i] == (if s[i] == '/' then '_' else s[i])
    decreases |s|
  {
    if |s| >= 1 {
      SlashToUnderscoreAt(s[1..]);
      if s[..1] == "/" {
        assert s[0] == '/';
      } else {
        assert s[0] != '/' by { assert s[..1] == [s[0]]; }
      }
    }
  }

  /** A leading "==" is dropped. */
  lemma DropsLeadingPair(k: nat, t: string)
    requires k >= 2
    ensures RemoveDoubleEquals(Equals(k) + t) == RemoveDoubleEquals(Equals(k - 2) + t)
  {
    var s := Equals(k) + t;
    assert s[..2] == "==";
    assert s[2..] == Equals(k - 2) + t;
  }

  /** A lone '=' before something that does not start with '=' is kept. */
  lemma KeepsLoneEquals(t: string)
    requires |t| == 0 || t[0] != '='
    ensures RemoveDoubleEquals(Equals(1) + t) == Equals(1) + RemoveDoubleEquals(t)
  {
    var s := Equals(1) + t;
    assert Equals(1) == "=";
    if |t| == 0 {
      assert s == "=";
    } else {
      assert s[..2] == ['=', t[0]];
      assert s[1..] == t;
    }
  }

  /** A run of k '=' followed by something that does not start with '=' keeps only
      k mod 2 of its '=' characters. */
  lemma {:induction false} RunOfEquals(k: nat, t: string)
    requires |t| == 0 || t[0] != '='
    ensures RemoveDoubleEquals(Equals(k) + t) == Equals(k % 2) + RemoveDoubleEquals(t)
    decreases k
  {
    if k >= 2 {
      DropsLeadingPair(k, t);
      RunOfEquals(k - 2, t);
      assert (k - 2) % 2 == k % 2;
    } else if k == 1 {
      KeepsLoneEquals(t);
    } else {
      assert Equals(0) + t == t;
    }
  }

  lemma NoDoubleEqualsAbsent(s: string)
    requires NoDoubleEquals(s)
    ensures forall i :: 0 <= i <= |s| - 2 ==> !OccursAt(s, "==", i)
  {
    forall i | 0 <= i <= |s| - 2
      ensures !OccursAt(s, "==", i)
    {
      assert s[i..i + 2] == [s[i], s[i + 1]];
    }
  }

  /** An id without '/' and without "==" is stored unchanged. */
  lemma CleanIdUnchanged(s: string)
    requires NoSlash(s) && NoDoubleEquals(s)
    ensures SanitiseId(s) == s
  {
    NoDoubleEqualsAbsent(s);
    ReplaceAllAbsent(s, "==", "");
    forall i | 0 <= i <= |s| - 1
      ensures !OccursAt(s, "/", i)
    {
      assert s[i..i + 1] == [s[i]];
    }
    ReplaceAllAbsent(s, "/", "_");
  }

  /** Setting the id to the stored id changes nothing: the rewrite is idempotent. */
  lemma SanitiseIdIdempotent(s: string)
    ensures SanitiseId(SanitiseId(s)) == SanitiseId(s)
  {
    CleanIdUnchanged(SanitiseId(s));
  }

  class WarcMetadataFromSolr {
    var id: Option<string>
    var mimetype: Option<string>
    var fileExtension: Option<string>
    var hash: Option<string>

    /** The no-argument constructor: every field is null. */
    constructor ()
      ensures id == None && mimetype == None && fileExtension == None && hash == None
    {
      id, mimetype, fileExtension, hash := None, None, None, None;
    }

    /** Stores the extension and the hash; id and mimetype stay null. */
    constructor WithExtensionAndHash(fileExtension: Option<string>, hash: Option<string>)
      ensures this.fileExtension == fileExtension && this.hash == hash
      ensures id == None && mimetype == None
    {
      this.fileExtension, this.hash := fileExtension, hash;
      id, mimetype := None, None;
    }

    function GetFileExtension(): Option<string> reads this { fileExtension }
    function GetHash(): Option<string> reads this { hash }
    function GetId(): Option<string> reads this { id }
    function GetMimetype(): Option<string> reads this { mimetype }

    method SetFileExtension(fileExtension: Option<string>)
      modifies this
      ensures GetFileExtension() == fileExtension
      ensures GetHash() == old(GetHash()) && GetId() == old(GetId()) && GetMimetype() == old(GetMimetype())
    {
      this.fileExtension := fileExtension;
    }

    method SetHash(hash: Option<string>)
      modifies this
      ensures GetHash() == hash
      ensures GetFileExtension() == old(GetFileExtension()) && GetId() == old(GetId())
      ensures GetMimetype() == old(GetMimetype())
    {
      this.hash := hash;
    }

    method SetMimetype(mimetype: Option<string>)
      modifies this
      ensures GetMimetype() == mimetype
      ensures GetFileExtension() == old(GetFileExtension()) && GetId() == old(GetId())
      ensures GetHash() == old(GetHash())
    {
      this.mimetype := mimetype;
    }

    /** Stores the rewritten id, which has no '/' and no "==". */
    method SetId(id: string)
      modifies this
      ensures GetId() == Some(SanitiseId(id))
      ensures NoSlash(GetId().value) && NoDoubleEquals(GetId().value)
      ensures GetFileExtension() == old(GetFileExtension()) && GetHash() == old(GetHash())
      ensures GetMimetype() == old(GetMimetype())
    {
      var s := RemoveDoubleEquals(id);
      this.id := Some(SlashToUnderscore(s));
    }
  }
}
