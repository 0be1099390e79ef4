/** What a tool returns has no token in it, and is otherwise what the upstream said. */
module Redaction {
  import opened PyText
  import opened JsonText
  import opened GuardedWrites
  import RequestLoop

  /** A key that reads `authtoken` in small letters. */
  predicate IsToken(key: Text) {
    RequestLoop.LowerText(key) == T("authtoken")
  }

  lemma TokenKeyExactly(key: Text)
    ensures IsTokenKey(key) <==> IsToken(key)
  {
    var lowered, word := RequestLoop.LowerText(key), T("authtoken");
    assert forall k :: 0 <= k < |word| ==> 0x61 <= word[k] <= 0x7A;
    if IsTokenKey(key) {
      forall k | 0 <= k < 9 ensures lowered[k] == word[k] {
        assert key[0 + k] == word[k] || key[0 + k] as int + 0x20 == word[k] as int;
      }
      assert lowered == word;
    } else if lowered == word {
      forall k | 0 <= k < 9 ensures key[0 + k] == word[k] || key[0 + k] as int + 0x20 == word[k] as int {
        assert lowered[k] == word[k];
      }
      assert WordAt(key, 0, word);
    }
  }

  /** No key of a dictionary, at any depth, is a token. */
  predicate TokenFree(d: Doc)
    decreases d
  {
    match d
    case DList(items) => forall i :: 0 <= i < |items| ==> TokenFree(items[i])
    case DDict(members) => forall i :: 0 <= i < |members| ==> MemberFree(d, i)
    case _ => true
  }

  predicate MemberFree(d: Doc, i: nat)
    requires d.DDict? && i < |d.members|
    decreases d, 0
  {
    assert d.members[i] in d.members && d.members[i].value < d.members[i] < d;
    !IsToken(d.members[i].key) && TokenFree(d.members[i].value)
  }

  /** What redaction leaves has no token, and a document without one is left as it is. */
  lemma {:induction false} RedactedExactly(d: Doc)
    ensures TokenFree(Redact(d))
    ensures Redact(d) == d <==> TokenFree(d)
    decreases d, 1, 0
  {
    match d {
      case DList(items) =>
        forall i | 0 <= i < |items| ensures TokenFree(Redact(items[i])) && (Redact(items[i]) == items[i] <==> TokenFree(items[i])) {
          RedactedExactly(items[i]);
        }
        ListsExactly(d, Redact(d));
      case DDict(members) =>
        MembersRedacted(d, 0);
        assert members[0..] == members;
      case _ =>
    }
  }

  lemma ListsExactly(d: Doc, r: Doc)
    requires d.DList? && r == DList(seq(|d.items|, i requires 0 <= i < |d.items| => Redact(d.items[i])))
    ensures r == d <==> forall i :: 0 <= i < |d.items| ==> Redact(d.items[i]) == d.items[i]
  {
    hide Redact;
    if forall i :: 0 <= i < |d.items| ==> Redact(d.items[i]) == d.items[i] {
      assert r.items == d.items;
    }
  }

  lemma {:induction false} MembersRedacted(d: Doc, from: nat)
    requires d.DDict? && from <= |d.members|
    ensures var r := RedactMembers(d, from);
      && |r| <= |d.members| - from
      && (forall i :: 0 <= i < |r| ==> !IsToken(r[i].key) && TokenFree(r[i].value))
      && (Unchanged(d, from) <==> AllFree(d, from))
    decreases d, 0, |d.members| - from
  {
    hide IsTokenKey, IsToken, Redact, TokenFree, MemberFree;
    if from < |d.members| {
      var m := d.members[from];
      assert m in d.members && m.value < m < d;
      RedactedExactly(m.value);
      MembersRedacted(d, from + 1);
      TokenKeyExactly(m.key);
      if IsTokenKey(m.key) {
        TokenDropped(d, from);
      } else {
        MemberKept(d, from);
      }
    }
  }

  /** The members from here on are left as they are. */
  predicate Unchanged(d: Doc, from: nat)
    requires d.DDict? && from <= |d.members|
  {
    RedactMembers(d, from) == d.members[from..]
  }

  ghost predicate AllFree(d: Doc, from: nat)
    requires d.DDict?
  {
    forall i :: from <= i < |d.members| ==> MemberFree(d, i)
  }

  lemma TokenDropped(d: Doc, from: nat)
    requires d.DDict? && from < |d.members| && IsToken(d.members[from].key) && IsTokenKey(d.members[from].key)
    requires |RedactMembers(d, from + 1)| <= |d.members| - from - 1
    ensures RedactMembers(d, from) == RedactMembers(d, from + 1)
    ensures !Unchanged(d, from) && !AllFree(d, from)
  {
    hide IsTokenKey, IsToken, Redact, TokenFree;
    var tail := RedactMembers(d, from + 1);
    assert [] + tail == tail;
    assert |tail| < |d.members[from..]|;
    assert !MemberFree(d, from);
  }

  lemma MemberKept(d: Doc, from: nat)
    requires d.DDict? && from < |d.members| && !IsToken(d.members[from].key) && !IsTokenKey(d.members[from].key)
    requires Redact(d.members[from].value) == d.members[from].value <==> TokenFree(d.members[from].value)
    requires Unchanged(d, from + 1) <==> AllFree(d, from + 1)
    ensures RedactMembers(d, from) == [Member(d.members[from].key, Redact(d.members[from].value))] + RedactMembers(d, from + 1)
    ensures Unchanged(d, from) <==> AllFree(d, from)
  {
    hide IsTokenKey, IsToken, Redact, TokenFree;
    var m, tail, kept := d.members[from], RedactMembers(d, from + 1), d.members[from + 1..];
    var r := [Member(m.key, Redact(m.value))] + tail;
    assert d.members[from..] == [m] + kept;
    assert r[1..] == tail && ([m] + kept)[1..] == kept;
    assert r == [m] + kept <==> Redact(m.value) == m.value && tail == kept;
    assert MemberFree(d, from) <==> Redact(m.value) == m.value;
    assert AllFree(d, from) <==> MemberFree(d, from) && AllFree(d, from + 1);
  }
}
