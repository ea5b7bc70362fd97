/**
 * The checkpoint file name (bot/src/utils/checkpoint.util.ts): the md5 digest,
 * in hexadecimal, of the group id, the folder path and the reference base path
 * written one after the other, wrapped as `checkpoint_<digest>.json`.
 *
 * md5 is not modelled; every function takes the digest function `md5` as a
 * parameter, so whatever is proved holds for any digest.
 */
module CheckpointUtil {
  import opened Wrappers

  const FilePrefix: string := "checkpoint_"
  const FileSuffix: string := ".json"

  /** The text that is hashed: the three parameters with nothing between them. */
  function HashInput(groupId: string, folderPath: string, referenceBasePath: string): (s: string)
    ensures |s| == |groupId| + |folderPath| + |referenceBasePath|
    ensures s[..|groupId|] == groupId
    ensures s[|groupId|..|groupId| + |folderPath|] == folderPath
    ensures s[|s| - |referenceBasePath|..] == referenceBasePath
  {
    groupId + folderPath + referenceBasePath
  }

  /** `generateCheckpointHash`: the digest of the three parameters written
      one after the other, with no separator. */
  function CheckpointHash(md5: string -> string, groupId: string, folderPath: string, referenceBasePath: string): (h: string)
    ensures h == md5(groupId + folderPath + referenceBasePath)
  {
    md5(HashInput(groupId, folderPath, referenceBasePath))
  }

  /** `getCheckpointFilename`. */
  function CheckpointFilename(md5: string -> string, groupId: string, folderPath: string, referenceBasePath: string): (name: string)
    ensures HashOfFilename(name) == Some(CheckpointHash(md5, groupId, folderPath, referenceBasePath))
  {
    var hash := CheckpointHash(md5, groupId, folderPath, referenceBasePath);
    WrapHash(hash);
    FilePrefix + hash + FileSuffix
  }

  /** The digest a checkpoint file name carries, if it has the shape of one. */
  function HashOfFilename(name: string): (hash: Option<string>)
    ensures hash.Some? ==> name == FilePrefix + hash.value + FileSuffix
  {
    if |name| >= |FilePrefix| + |FileSuffix|
      && name[..|FilePrefix|] == FilePrefix
      && name[|name| - |FileSuffix|..] == FileSuffix
    then
      var hash := name[|FilePrefix|..|name| - |FileSuffix|];
      assert name == name[..|FilePrefix|] + hash + name[|name| - |FileSuffix|..];
      Some(hash)
    else None
  }

  lemma WrapHash(hash: string)
    ensures HashOfFilename(FilePrefix + hash + FileSuffix) == Some(hash)
  {
    var name := FilePrefix + hash + FileSuffix;
    assert name[..|FilePrefix|] == FilePrefix;
    assert name[|name| - |FileSuffix|..] == FileSuffix;
    assert name[|FilePrefix|..|name| - |FileSuffix|] == hash;
  }

  /** Two parameter triples get the same file exactly when their digests agree;
      in particular equal triples always share one file. */
  lemma SameFileIffSameHash(md5: string -> string, g1: string, f1: string, r1: string, g2: string, f2: string, r2: string)
    ensures CheckpointFilename(md5, g1, f1, r1) == CheckpointFilename(md5, g2, f2, r2)
        <==> CheckpointHash(md5, g1, f1, r1) == CheckpointHash(md5, g2, f2, r2)
  {
    var n1, n2 := CheckpointFilename(md5, g1, f1, r1), CheckpointFilename(md5, g2, f2, r2);
    assert HashOfFilename(n1).value == CheckpointHash(md5, g1, f1, r1);
    assert HashOfFilename(n2).value == CheckpointHash(md5, g2, f2, r2);
  }

  /** Triples whose concatenations coincide share a checkpoint file, whatever
      the digest: the three parts are joined without a separator. */
  lemma ConcatenationDecides(md5: string -> string, g1: string, f1: string, r1: string, g2: string, f2: string, r2: string)
    requires g1 + f1 + r1 == g2 + f2 + r2
    ensures CheckpointFilename(md5, g1, f1, r1) == CheckpointFilename(md5, g2, f2, r2)
  {
  }

  /** ("ab", "c", "d") and ("a", "bc", "d") are different parameters with one
      checkpoint file. */
  lemma SeparatorFreeCollision(md5: string -> string)
    ensures ("ab", "c", "d") != ("a", "bc", "d")
    ensures CheckpointFilename(md5, "ab", "c", "d") == CheckpointFilename(md5, "a", "bc", "d")
  {
    assert "ab" + "c" + "d" == "a" + "bc" + "d";
    ConcatenationDecides(md5, "ab", "c", "d", "a", "bc", "d");
  }
}
