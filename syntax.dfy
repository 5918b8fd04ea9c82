/**
 * `EmailVerifier.validateSyntax`: the anchored pattern
 *   local-part "@" label ("." label)*
 * where the local part is one or more characters of a fixed class and a label
 * is 1 to 63 letters, digits or hyphens that starts and ends with a letter or
 * digit (the "valid email address" production of the WHATWG HTML Living
 * Standard, section 4.10.5.1.5).
 */
module Syntax {
  import opened Strings

  predicate IsLetterOrDigit(c: char) {
    'a' <= c <= 'z' || 'A' <= c <= 'Z' || IsDigit(c)
  }

  /** The class `[a-zA-Z0-9.!#$%&'*+/=?^_`{|}~-]` of the local part. */
  predicate IsLocalChar(c: char) {
    IsLetterOrDigit(c) || c in ".!#$%&'*+/=?^_`{|}~-"
  }

  /** `[a-zA-Z0-9](?:[a-zA-Z0-9-]{0,61}[a-zA-Z0-9])?` matched against a whole label. */
  predicate IsLabel(l: string) {
    && 1 <= |l| <= 63
    && IsLetterOrDigit(l[0])
    && IsLetterOrDigit(l[|l| - 1])
    && forall k :: 0 <= k < |l| ==> IsLetterOrDigit(l[k]) || l[k] == '-'
  }

  predicate IsLocalPart(s: string) {
    |s| >= 1 && forall k :: 0 <= k < |s| ==> IsLocalChar(s[k])
  }

  /** The dot-separated pieces of `d` are all labels. */
  predicate IsDomain(d: string) {
    var labels := Split(d, '.');
    forall k :: 0 <= k < |labels| ==> IsLabel(labels[k])
  }

  /** `regex.test(email)`: the text around the one `@` is a local part and a domain. */
  predicate ValidateSyntax(email: string) {
    var parts := Split(email, '@');
    |parts| == 2 && IsLocalPart(parts[0]) && IsDomain(parts[1])
  }

  /** The grammar, stated without splitting: some `@` divides the address into a
      local part and a non-empty sequence of labels joined by dots. */
  ghost predicate IsLabelSequence(labels: seq<string>) {
    |labels| >= 1 && forall k :: 0 <= k < |labels| ==> IsLabel(labels[k])
  }

  ghost predicate LabelsSpell(labels: seq<string>, d: string) {
    IsLabelSequence(labels) && Join(labels, '.') == d
  }

  ghost predicate SpellsDomain(d: string) {
    exists labels :: LabelsSpell(labels, d)
  }

  ghost predicate IsAddressAt(email: string, i: int) {
    && 0 <= i < |email|
    && email[i] == '@'
    && IsLocalPart(email[..i])
    && SpellsDomain(email[i + 1..])
  }

  /** The validator accepts exactly the addresses of the grammar. */
  lemma ValidateSyntaxMatchesGrammar(email: string)
    ensures ValidateSyntax(email) <==> exists i :: IsAddressAt(email, i)
  {
    if ValidateSyntax(email) {
      var parts := Split(email, '@');
      JoinSplit(email, '@');
      var i := |parts[0]|;
      assert email == parts[0] + ['@'] + parts[1];
      assert email[..i] == parts[0] && email[i + 1..] == parts[1];
      var labels := Split(parts[1], '.');
      JoinSplit(parts[1], '.');
      assert LabelsSpell(labels, email[i + 1..]);
      assert IsAddressAt(email, i);
    }
    if i :| IsAddressAt(email, i) {
      GrammarImpliesValid(email, i);
    }
  }

  lemma GrammarImpliesValid(email: string, i: int)
    requires IsAddressAt(email, i)
    ensures ValidateSyntax(email)
  {
    var local, d := email[..i], email[i + 1..];
    var labels :| LabelsSpell(labels, d);
    assert forall k :: 0 <= k < |labels| ==> '.' !in labels[k] && '@' !in labels[k];
    SplitJoin(labels, '.');
    JoinAvoids(labels, '.', '@');
    assert '@' !in local;
    assert email == Join([local, d], '@');
    SplitJoin([local, d], '@');
  }

  /** A valid address has exactly one `@`, and `email.split('@')[1]` is everything after it. */
  lemma DomainOfValidAddress(email: string) returns (i: nat)
    requires ValidateSyntax(email)
    ensures i < |email| && email[i] == '@'
    ensures forall j :: 0 <= j < |email| && email[j] == '@' ==> j == i
    ensures Split(email, '@')[0] == email[..i] && IsLocalPart(email[..i])
    ensures Split(email, '@')[1] == email[i + 1..] && IsDomain(email[i + 1..])
  {
    var parts := Split(email, '@');
    JoinSplit(email, '@');
    i := |parts[0]|;
    assert email == parts[0] + ['@'] + parts[1];
    assert email[..i] == parts[0] && email[i + 1..] == parts[1];
    forall j | 0 <= j < |email| && email[j] == '@' ensures j == i {
    }
  }
}
