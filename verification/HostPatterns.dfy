/**
 The direct treatment of host patterns that begin with a wildcard label, compared
 with what the same pattern means as a glob.
 */
module HostPatterns {
  import opened Text
  import opened Model
  import opened Glob
  import opened Matching

  /** A pattern without glob syntax accepts itself and nothing else. */
  lemma {:induction false} PlainAcceptsItself(pattern: string, sep: char, text: string)
    requires !GlobActive(pattern)
    ensures Accepts(pattern, sep, text) <==> text == pattern
    decreases |pattern|
  {
    if pattern != [] {
      assert pattern[0] in pattern && pattern == [pattern[0]] + pattern[1..];
      if text != [] {
        assert text == [text[0]] + text[1..];
        PlainAcceptsItself(pattern[1..], sep, text[1..]);
      }
    }
  }

  lemma DottedIsPlain(base: string)
    requires !GlobActive(base)
    ensures !GlobActive("." + base)
  {
  }

  /** The host is `labels`, a dot and the base. */
  predicate Extends(host: string, labels: string, base: string) {
    host == labels + "." + base
  }

  /** The labels in front of a base are what precedes a dot and the base. */
  lemma LabelsPrecedeBase(host: string, base: string, labels: string)
    ensures DottedSuffixPrefix(host, base) == Some(labels) <==> Extends(host, labels, base)
  {
    if Extends(host, labels, base) {
      assert host[|host| - |base|..] == base;
      assert host[..|host| - |base|] == labels + ".";
      assert (labels + ".")[..|labels|] == labels;
    }
    if DottedSuffixPrefix(host, base) == Some(labels) {
      var front := host[..|host| - |base|];
      assert front == front[..|front| - 1] + ".";
      assert host == front + host[|host| - |base|..];
    }
  }

  lemma StarAccepts(base: string, host: string, k: nat)
    requires !GlobActive(base) && k <= |host|
    ensures Accepts("." + base, '.', host[k..]) <==> Extends(host, host[..k], base)
  {
    DottedIsPlain(base);
    PlainAcceptsItself("." + base, '.', host[k..]);
    assert host == host[..k] + host[k..];
    assert host[..k] + "." + base == host[..k] + ("." + base);
    assert (host[..k] + ("." + base))[k..] == "." + base;
  }

  predicate IsLabel(s: string) {
    s != [] && '.' !in s
  }

  /** One wildcard label matches exactly the hosts with one non-empty label in front of the base. */
  lemma OneLabelMeaning(base: string, host: string)
    ensures SpecialHostMatch("*." + base, host) == Some(true) <==>
      exists labels :: Extends(host, labels, base) && IsLabel(labels)
  {
    var pattern := "*." + base;
    assert pattern[2..] == base;
    assert pattern[1] == '.' && !("**." <= pattern) && "*." <= pattern;
    forall labels
      ensures DottedSuffixPrefix(host, base) == Some(labels) <==> Extends(host, labels, base)
    {
      LabelsPrecedeBase(host, base, labels);
    }
  }

  /** As a glob, the wildcard may stand for no character at all. */
  lemma OneLabelGlobMeaning(base: string, host: string)
    requires !GlobActive(base)
    ensures Accepts("*." + base, '.', host) <==> exists labels :: Extends(host, labels, base) && '.' !in labels
  {
    var pattern := "*." + base;
    assert pattern[1..] == "." + base && pattern[1] == '.';
    if Accepts(pattern, '.', host) {
      var k :| 0 <= k <= |host| && '.' !in host[..k] && Accepts(pattern[1..], '.', host[k..]);
      StarAccepts(base, host, k);
    }
    if labels :| Extends(host, labels, base) && '.' !in labels {
      assert host[..|labels|] == labels;
      StarAccepts(base, host, |labels|);
    }
  }

  /** One wildcard label: the glob's meaning, except that the label must not be empty. */
  lemma OneLabelIsGlob(base: string, host: string)
    requires !GlobActive(base)
    ensures SpecialHostMatch("*." + base, host) == Some(true) <==>
      Accepts("*." + base, '.', host) && host != "." + base
  {
    OneLabelMeaning(base, host);
    OneLabelGlobMeaning(base, host);
    assert [] + "." + base == "." + base;
    forall labels | Extends(host, labels, base)
      ensures labels == [] <==> host == "." + base
    {
      assert |host| == |labels| + 1 + |base|;
    }
  }

  /** Any number of labels: the glob's meaning, and the base itself besides. */
  lemma AnyLabelsAreGlob(base: string, host: string)
    requires !GlobActive(base)
    ensures SpecialHostMatch("**." + base, host) == Some(true) <==> host == base || Accepts("**." + base, '.', host)
  {
    var pattern := "**." + base;
    assert pattern[3..] == base && pattern[2..] == "." + base;
    assert pattern[1] == '*' && "**." <= pattern;
    var labels := DottedSuffixPrefix(host, base);
    if labels.Some? {
      LabelsPrecedeBase(host, base, labels.value);
      StarAccepts(base, host, |labels.value|);
      assert host[..|labels.value|] == labels.value;
    }
    if Accepts(pattern, '.', host) {
      var k :| 0 <= k <= |host| && Accepts(pattern[2..], '.', host[k..]);
      StarAccepts(base, host, k);
      LabelsPrecedeBase(host, base, host[..k]);
    }
  }
}
