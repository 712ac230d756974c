/** App, service and volume names of src/datastore/AppsDataStore.ts. A legacy app's service and volumes carry the
namespace and a double hyphen; names that are allowed today contain none, so the two kinds never meet. */
module Names {
  import opened Text

  predicate AlphaNumeric(c: char) {
    IsLower(c) || IsDigit(c)
  }

  predicate NameAllowed(name: string) {
    && name != "" && |name| < 50
    && AlphaNumeric(name[0]) && AlphaNumeric(name[|name| - 1])
    && (forall c :: c in name ==> AlphaNumeric(c) || c == '-')
    && !HasDouble(name, '-')
    && name != "captain" && name != "registry" && !("captain-" <= name)
  }

  predicate VolumeChar(c: char) {
    AlphaNumeric(c) || IsUpper(c)
  }

  predicate VolumeNameAllowed(name: string) {
    && name != "" && |name| < 256
    && VolumeChar(name[0]) && VolumeChar(name[|name| - 1])
    && (forall c :: c in name ==> VolumeChar(c) || c in {'_', '.', '-'})
    && !HasDouble(name, '.') && !HasDouble(name, '-')
  }

  function ServiceName(namespace: string, appName: string, isLegacy: bool): string {
    if isLegacy then "srv-" + namespace + "--" + appName else appName
  }

  function VolumeName(namespace: string, volume: string, isLegacy: bool): string {
    if isLegacy then namespace + "--" + volume else volume
  }

  lemma DoubleHyphen(before: string, after: string)
    ensures HasDouble(before + "--" + after, '-')
  {
    var s := before + "--" + after;
    assert s[|before|] == '-' && s[|before| + 1] == '-';
  }

  lemma SamePrefix(p: string, a: string, b: string)
    requires p + a == p + b
    ensures a == b
  {
    assert (p + a)[|p|..] == a && (p + b)[|p|..] == b;
  }

  /** The service name determines the app: no two allowed names, legacy or not, share a service. */
  lemma ServiceNamesAreDistinct(namespace: string, a: string, legacyA: bool, b: string, legacyB: bool)
    requires NameAllowed(a) && NameAllowed(b)
    ensures ServiceName(namespace, a, legacyA) == ServiceName(namespace, b, legacyB) <==> a == b && legacyA == legacyB
  {
    DoubleHyphen("srv-" + namespace, a);
    DoubleHyphen("srv-" + namespace, b);
    if legacyA && legacyB && ServiceName(namespace, a, true) == ServiceName(namespace, b, true) {
      SamePrefix("srv-" + namespace + "--", a, b);
    }
  }

  /** The physical volume determines the logical one and the kind of app it belongs to. */
  lemma VolumeNamesAreDistinct(namespace: string, a: string, legacyA: bool, b: string, legacyB: bool)
    requires VolumeNameAllowed(a) && VolumeNameAllowed(b)
    ensures VolumeName(namespace, a, legacyA) == VolumeName(namespace, b, legacyB) <==> a == b && legacyA == legacyB
  {
    DoubleHyphen(namespace, a);
    DoubleHyphen(namespace, b);
    if legacyA && legacyB && VolumeName(namespace, a, true) == VolumeName(namespace, b, true) {
      SamePrefix(namespace + "--", a, b);
    }
  }

  // ---------------------------------------------------------------------------------------------
  // Reading names back
  // ---------------------------------------------------------------------------------------------

  /** The app whose service this is, and whether it is a legacy one. */
  function AppOf(namespace: string, service: string): (string, bool) {
    var prefix := "srv-" + namespace + "--";
    if prefix <= service then (service[|prefix|..], true) else (service, false)
  }

  function VolumeOf(namespace: string, physical: string): (string, bool) {
    var prefix := namespace + "--";
    if prefix <= physical then (physical[|prefix|..], true) else (physical, false)
  }

  lemma PrefixKeepsDouble(before: string, s: string)
    requires before + "--" <= s
    ensures HasDouble(s, '-')
  {
    assert s[|before|] == '-' && s[|before| + 1] == '-';
  }

  /** A legacy app's service carries the namespace, a new app's service is the app's own name; both can be read back. */
  lemma ServiceNameRoundTrip(namespace: string, appName: string, isLegacy: bool)
    requires NameAllowed(appName)
    ensures AppOf(namespace, ServiceName(namespace, appName, isLegacy)) == (appName, isLegacy)
  {
    var before := "srv-" + namespace;
    assert before + "--" == "srv-" + namespace + "--";
    if before + "--" <= appName { PrefixKeepsDouble(before, appName); }
    if isLegacy { assert (before + "--" + appName)[|before| + 2..] == appName; }
  }

  /** The same for volumes. */
  lemma VolumeNameRoundTrip(namespace: string, volume: string, isLegacy: bool)
    requires VolumeNameAllowed(volume)
    ensures VolumeOf(namespace, VolumeName(namespace, volume, isLegacy)) == (volume, isLegacy)
  {
    if namespace + "--" <= volume { PrefixKeepsDouble(namespace, volume); }
    if isLegacy { assert (namespace + "--" + volume)[|namespace| + 2..] == volume; }
  }
}
