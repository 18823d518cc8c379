/** KRM resources and the annotations that say which package and which file they are kept in. */
module Resources {
  import opened FilePaths

  datatype Resource = Resource(
    apiVersion: string, kind: string, name: string, namespace: string,
    labels: map<string, string>, annotations: map<string, string>, body: string)

  const PKG_PATH_ANNOTATION := "internal.config.kubernetes.io/package-path"

  const PATH_ANNOTATION := "internal.config.kubernetes.io/path"

  const INDEX_ANNOTATION := "internal.config.kubernetes.io/index"

  const LEGACY_PATH_ANNOTATION := "config.kubernetes.io/path"

  const LEGACY_INDEX_ANNOTATION := "config.kubernetes.io/index"

  function Annotation(r: Resource, key: string): string {
    if key in r.annotations then r.annotations[key] else ""
  }

  /** The package a resource is tagged with, "" if it is with none. */
  function PackageOf(r: Resource): string {
    Annotation(r, PKG_PATH_ANNOTATION)
  }

  /** The file of a resource, relative to its package; the legacy annotation counts only
      where the other is missing. */
  function PathOf(r: Resource): string {
    if PATH_ANNOTATION in r.annotations then r.annotations[PATH_ANNOTATION] else Annotation(r, LEGACY_PATH_ANNOTATION)
  }

  /** Its place among the resources of that file. */
  function IndexOf(r: Resource): string {
    if INDEX_ANNOTATION in r.annotations then r.annotations[INDEX_ANNOTATION] else Annotation(r, LEGACY_INDEX_ANNOTATION)
  }

  function Annotated(r: Resource, key: string, value: string): Resource {
    r.(annotations := r.annotations[key := value])
  }

  /** What is set is read: package, file and index each under its own annotation, a legacy
      annotation only where the other is missing. */
  lemma PlaceIsRead(r: Resource, s: string)
    ensures PackageOf(Annotated(r, "internal.config.kubernetes.io/package-path", s)) == s
    ensures PathOf(Annotated(r, "internal.config.kubernetes.io/path", s)) == s
    ensures IndexOf(Annotated(r, "internal.config.kubernetes.io/index", s)) == s
    ensures "internal.config.kubernetes.io/path" !in r.annotations ==>
              PathOf(Annotated(r, "config.kubernetes.io/path", s)) == s
    ensures "internal.config.kubernetes.io/index" !in r.annotations ==>
              IndexOf(Annotated(r, "config.kubernetes.io/index", s)) == s
  {
  }

  /** What the path check asks of every resource that a function puts out. */
  predicate StaysInPackage(r: Resource) {
    !Escapes(PathOf(r))
  }

  /** A resource that names its package explicitly, as the package reader leaves it. */
  predicate TaggedWith(r: Resource, pkg: string) {
    PackageOf(r) == pkg && pkg != ""
  }
}
