/** Where the listener serves files from and saves files to, as strings:
    the working directory is a parameter, and nothing touches a disk. */
module Paths {
  import opened Protocol
  import Strings

  /** The file served for a decoded request path: an absolute path as is,
      anything else under the working directory's `uploads`; None where
      indexing the first byte of an empty path panics. */
  function ServedFile(cwd: string, plaintext: string): (r: Option<string>)
    ensures r.None? <==> plaintext == []
    ensures r.Some? ==> |plaintext| <= |r.value| && r.value[|r.value| - |plaintext|..] == plaintext
  {
    if plaintext == [] then None
    else if plaintext[0] == '/' then Some(plaintext)
    else Some(cwd + "/uploads/" + plaintext)
  }

  /** A relative request becomes `<cwd>/uploads/` followed by the request,
      by its text prefix only (a ".." in it still climbs out once the path
      is resolved), and an absolute one is served unchanged. */
  lemma ServedFileCases(cwd: string, plaintext: string)
    requires plaintext != []
    ensures plaintext[0] == '/' ==> ServedFile(cwd, plaintext) == Some(plaintext)
    ensures plaintext[0] != '/' ==>
      var p := ServedFile(cwd, plaintext).value;
      var dir := cwd + "/uploads/";
      |dir| <= |p| && p[..|dir|] == dir && p[|dir|..] == plaintext
  {
  }

  /** The directory a beacon's files are saved in. */
  function SaveDir(ip: string, id: string): (d: string)
    ensures |"downloads/"| <= |d| && d[..|"downloads/"|] == "downloads/"
    ensures |id| < |d| && d[|d| - |id| - 1..] == "/" + id
  {
    "downloads" + "/" + ip + "/" + id
  }

  /** The saved file is named by its last path segment, and its path
      starts with `downloads/` by its text prefix (an Ip or Id holding ".."
      still resolves elsewhere). */
  lemma SavedFileName(ip: string, id: string, filename: string)
    ensures var name := Strings.LastSegment(filename, '/');
      var saved := SaveDir(ip, id) + "/" + name;
      && Strings.LastSegment(saved, '/') == name
      && saved[..|"downloads/"|] == "downloads/"
  {
    var name := Strings.LastSegment(filename, '/');
    Strings.LastSegmentFree(filename, '/');
    Strings.LastSegmentOfAppend(SaveDir(ip, id), name, '/');
    assert SaveDir(ip, id) + "/" + name == SaveDir(ip, id) + ['/'] + name;
  }
}
