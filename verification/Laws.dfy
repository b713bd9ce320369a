/**
 The laws asked of libraries can be met together, so no theorem holds for want of a
 world to apply it to.
 */
module Laws {
  import opened Text
  import opened RegexLiteral
  import opened Model
  import SpillFiles

  predicate Hit(ignoreCase: bool, literal: string, text: string) {
    if ignoreCase then OccursIgnoreCase(literal, text) else Occurs(literal, text)
  }

  /** The ids below `n` of literals that occur. */
  function Hits(ignoreCase: bool, literals: seq<string>, text: string, n: nat): (ids: seq<nat>)
    requires n <= |literals|
    ensures forall id :: id in ids <==> 0 <= id < n && Hit(ignoreCase, literals[id], text)
  {
    if n == 0 then []
    else Hits(ignoreCase, literals, text, n - 1) + if Hit(ignoreCase, literals[n - 1], text) then [n - 1] else []
  }

  /** Any parser and environment, with a search that finds what the syntax tree finds and a plain scan. */
  lemma LawsCanBeMet(parse: string -> Option<UrlParts>, env: string -> Option<string>) returns (w: World)
    ensures w.Lawful() && w.parse == parse && w.env == env
    ensures forall regex, text :: w.search(regex, text).Some? <==>
      regex.syntax.Some? && Finds(regex.syntax.value, w.looks, text)
  {
    var looks := (look: nat, text: string, at: nat) => true;
    w := World(
      parse,
      (regex: RegexMatcher, text: string) =>
        if regex.syntax.Some? && Finds(regex.syntax.value, looks, text) then Some(NO_CAPTURES) else None,
      looks,
      source => true,
      literals => true,
      literals => true,
      (ignoreCase, literals, text) => Hits(ignoreCase, literals, text, |literals|),
      bytes => "",
      env,
      value => None,
      (url, verb, line) => 0);
  }

  /** A codec that marks its frames meets the law of the spill log. */
  lemma CodecsCanBeLawful() returns (codec: SpillFiles.Codec)
    ensures codec.Lawful()
  {
    codec := SpillFiles.Codec(
      (bytes, level) => Some([0] + bytes),
      frame => if frame == [] then None else Some(frame[1..]),
      bytes => 0);
  }
}
