/**
 * Storage-key namespacing of the frontend (`storageNamespace.ts`): the
 * namespace comes from the build environment, is sanitised to lower-case
 * letters, digits, `_` and `-`, and, when it is not empty, is joined to every
 * local-storage key and database name with a double underscore.
 *
 * The environment value (`import.meta.env.VITE_STORAGE_NAMESPACE || ''`) is a
 * parameter `raw` of each operation.
 */
module StorageNamespace {
  import opened Lists
  import opened Text

  /** The characters the pattern `[a-z0-9_-]` keeps. */
  predicate IsNamespaceChar(c: char) {
    ('a' <= c <= 'z') || ('0' <= c <= '9') || c == '_' || c == '-'
  }

  /** `sanitizeNamespace`: lower-case, then drop every character outside `[a-z0-9_-]`. */
  function Sanitize(value: string): (r: string)
    ensures forall i :: 0 <= i < |r| ==> IsNamespaceChar(r[i])
    ensures |r| <= |value|
  {
    Filter(Lower(value), IsNamespaceChar)
  }

  /** A text made only of allowed characters is its own sanitised form. */
  lemma SanitizeAllowed(value: string)
    requires forall i :: 0 <= i < |value| ==> IsNamespaceChar(value[i])
    ensures Sanitize(value) == value
  {
    assert Lower(value) == value;
    FilterAll(value, IsNamespaceChar);
  }

  /** Sanitising twice is sanitising once. */
  lemma SanitizeIdempotent(value: string)
    ensures Sanitize(Sanitize(value)) == Sanitize(value)
  {
    SanitizeAllowed(Sanitize(value));
  }

  /** Allowed characters survive sanitising, upper-case ASCII letters survive as their lower case. */
  lemma SanitizeKeeps(value: string, c: char)
    requires c in value && (IsNamespaceChar(c) || IsAsciiUpper(c))
    ensures LowerChar(c) in Sanitize(value)
  {
    var i :| 0 <= i < |value| && value[i] == c;
    assert Lower(value)[i] == LowerChar(c);
  }

  /** `STORAGE_NAMESPACE`: the trimmed environment value, sanitised. */
  function Namespace(raw: string): (ns: string)
    ensures forall i :: 0 <= i < |ns| ==> IsNamespaceChar(ns[i])
  {
    Sanitize(Trim(JsSpace, raw))
  }

  /** `IS_NAMESPACED_STORAGE`. */
  predicate IsNamespaced(raw: string) {
    |Namespace(raw)| > 0
  }

  /** `namespacedStorageKey`: the key itself, or `ns__key`. */
  function NamespacedStorageKey(raw: string, baseKey: string): (r: string)
    ensures !IsNamespaced(raw) <==> r == baseKey
    ensures IsNamespaced(raw) ==>
      var ns := Namespace(raw);
      && StartsWith(r, ns + "__") && r[|ns| + 2..] == baseKey
  {
    if !IsNamespaced(raw) then baseKey else Namespace(raw) + "__" + baseKey
  }

  /** `namespacedDbName`: the name itself, or `name__ns`. */
  function NamespacedDbName(raw: string, baseName: string): (r: string)
    ensures !IsNamespaced(raw) <==> r == baseName
    ensures IsNamespaced(raw) ==>
      var ns := Namespace(raw);
      && StartsWith(r, baseName + "__") && r[|baseName| + 2..] == ns
  {
    if !IsNamespaced(raw) then baseName else baseName + "__" + Namespace(raw)
  }

  /** A key prefixed by `ns__` determines `ns`, given the key. */
  lemma PrefixDetermines(n1: string, n2: string, base: string)
    requires n1 + "__" + base == n2 + "__" + base
    ensures n1 == n2
  {
    var k := n1 + "__" + base;
    assert |n1| == |n2|;
    assert n1 == k[..|n1|] && n2 == k[..|n2|];
  }

  /** A name suffixed by `__ns` determines `ns`, given the name. */
  lemma SuffixDetermines(n1: string, n2: string, base: string)
    requires base + "__" + n1 == base + "__" + n2
    ensures n1 == n2
  {
    var k := base + "__" + n1;
    assert n1 == k[|base| + 2..] && n2 == k[|base| + 2..];
  }

  /** Two builds with different namespaces never share a storage key or a database name. */
  lemma NamespacesSeparate(raw1: string, raw2: string, base: string)
    requires Namespace(raw1) != Namespace(raw2)
    ensures NamespacedStorageKey(raw1, base) != NamespacedStorageKey(raw2, base)
    ensures NamespacedDbName(raw1, base) != NamespacedDbName(raw2, base)
  {
    var n1, n2 := Namespace(raw1), Namespace(raw2);
    if IsNamespaced(raw1) && IsNamespaced(raw2) {
      if n1 + "__" + base == n2 + "__" + base {
        PrefixDetermines(n1, n2, base);
      }
      if base + "__" + n1 == base + "__" + n2 {
        SuffixDetermines(n1, n2, base);
      }
    }
  }
}
