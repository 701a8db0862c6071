/** The few .NET string members the context menu sheet relies on, over `string` as `seq<char>`. */
module Strings {

  /** A reference that may be null (a resource string that is missing, an attribute that is absent). */
  datatype Option<+T> = None | Some(value: T)

  /** The suffix every resource id carries and every persisted key lacks. */
  const Label := "_Label"

  /** `string.EndsWith`. The source call compares under the current culture; the model compares characters exactly. */
  predicate EndsWith(s: string, suffix: string) {
    |suffix| <= |s| && s[|s| - |suffix|..] == suffix
  }

  /** `char.IsWhiteSpace`: the Unicode space, line and paragraph separators, U+0009..U+000D and U+0085. */
  predicate IsWhiteSpace(c: char) {
    || c == ' ' || ('\t' <= c <= '\r') || c == '\U{85}' || c == '\U{A0}' || c == '\U{1680}'
    || ('\U{2000}' <= c <= '\U{200A}') || c == '\U{2028}' || c == '\U{2029}'
    || c == '\U{202F}' || c == '\U{205F}' || c == '\U{3000}'
  }

  /** `string.IsNullOrWhiteSpace`. */
  predicate IsNullOrWhiteSpace(s: Option<string>) {
    s.None? || forall i :: 0 <= i < |s.value| ==> IsWhiteSpace(s.value[i])
  }

  /** True when `s` begins with `Label`. */
  predicate StartsWithLabel(s: string) {
    |Label| <= |s| && s[..|Label|] == Label
  }

  /**
   * `s.Replace("_Label", string.Empty)`: every non-overlapping occurrence of `Label`,
   * found scanning left to right, is removed; what remains is not scanned again.
   */
  function StripLabel(s: string): (r: string)
    ensures |r| <= |s|
    ensures !StartsWithLabel(s) && s != [] ==> r != [] && r[0] == s[0]
    decreases |s|
  {
    if StartsWithLabel(s) then StripLabel(s[|Label|..])
    else if s == [] then []
    else [s[0]] + StripLabel(s[1..])
  }

  /**
   * A resource id is its persisted key followed by `Label`: stripping ignores that suffix,
   * because no occurrence of `Label` can straddle the place where it was appended.
   */
  lemma {:induction false} StripLabelSuffix(x: string)
    ensures StripLabel(x + Label) == StripLabel(x)
  {
    if x == [] {
      assert x + Label == Label;
      assert Label[|Label|..] == [];
    } else if StartsWithLabel(x) {
      assert (x + Label)[..|Label|] == x[..|Label|];
      assert (x + Label)[|Label|..] == x[|Label|..] + Label;
      StripLabelSuffix(x[|Label|..]);
    } else {
      // `Label` starts with its only underscore, so it cannot begin inside `x` and end in the suffix
      if |x| < |Label| {
        assert (x + Label)[|x|] == Label[0] == '_';
        assert Label[|x|] != '_';
      } else {
        assert (x + Label)[..|Label|] == x[..|Label|];
      }
      assert (x + Label)[0] == x[0];
      assert (x + Label)[1..] == x[1..] + Label;
      StripLabelSuffix(x[1..]);
    }
  }
}
