/** The browser `File` objects the components pass around. A `File` is an
    object: two uploads of the same file on disk are two different objects, and
    JavaScript's `===` and `!==` compare them by identity. The model keeps that
    identity as `handle`, so two values are equal exactly when they stand for
    the same object. */
module Browser {
  import Text

  datatype File = File(handle: nat, name: string, mime: string, size: nat)

  /** `file.type.startsWith('image/')`. */
  predicate IsImage(f: File) {
    Text.StartsWith(f.mime, "image/")
  }

  /** Files that are distinct objects, as the file chooser delivers them. */
  predicate DistinctObjects(fs: seq<File>) {
    forall i, j :: 0 <= i < j < |fs| ==> fs[i].handle != fs[j].handle
  }
}
