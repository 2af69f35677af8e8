/** The front end's `nameToDir`: the directory name derived from a project
    name. */
module FrontendUtils {
  import opened Text

  /** Replaces every plain space `' '` with `-`; other characters, other
      whitespace included, are kept. */
  function ReplaceSpaces(s: string): (r: string)
    ensures |r| == |s|
  {
    seq(|s|, i requires 0 <= i < |s| => if s[i] == ' ' then '-' else s[i])
  }

  /** `nameToDir`: lower case, then spaces become dashes. */
  function NameToDir(name: string): (dir: string)
    ensures |dir| == |name|
    ensures ' ' !in dir
  {
    ReplaceSpaces(Lower(name))
  }

  /** Character by character: a space becomes `-`, a tab stays a tab, and
      every other character is lower-cased. */
  lemma NameToDirChars(name: string)
    ensures forall i :: 0 <= i < |name| && name[i] == ' ' ==> NameToDir(name)[i] == '-'
    ensures forall i :: 0 <= i < |name| && name[i] == '\t' ==> NameToDir(name)[i] == '\t'
    ensures forall i :: 0 <= i < |name| && name[i] != ' ' ==> NameToDir(name)[i] == AsciiLower(name[i])
  {
  }

  /** A directory name is its own directory name. */
  lemma NameToDirIdempotent(name: string)
    ensures NameToDir(NameToDir(name)) == NameToDir(name)
  {
    var d := NameToDir(name);
    forall i | 0 <= i < |d| ensures NameToDir(d)[i] == d[i] {
      assert d[i] != ' ';
      assert AsciiLower(d[i]) == d[i];
    }
  }

  /** Names that differ only in the case of ASCII letters share a directory. */
  lemma NameToDirIgnoresCase(a: string, b: string)
    requires Lower(a) == Lower(b)
    ensures NameToDir(a) == NameToDir(b)
  {
  }
}
