/** Choosing the output backend from the configured name. */
module Output {
  import opened Common
  import opened Text

  datatype Backend = Trello | Dashboard

  /** The name as `get_backend` compares it: lower-cased, then stripped. */
  function Normalise(name: string): string {
    Strip(Lower(name))
  }

  function UnknownBackendMessage(name: string): string {
    "Unknown OUTPUT_BACKEND='" + name + "' in config.py. Valid options: 'trello', 'dashboard'"
  }

  /** `get_backend`: "trello" and "dashboard" select their backends after
      normalisation; any other name is an error quoting the name as configured. */
  function GetBackend(name: string): (r: Result<Backend>)
    ensures r == Ok(Trello) <==> Normalise(name) == "trello"
    ensures r == Ok(Dashboard) <==> Normalise(name) == "dashboard"
    ensures r.Err? <==> Normalise(name) != "trello" && Normalise(name) != "dashboard"
    ensures r.Err? ==> r.message == UnknownBackendMessage(name)
  {
    var key := Normalise(name);
    if key == "trello" then Ok(Trello)
    else if key == "dashboard" then Ok(Dashboard)
    else Err(UnknownBackendMessage(name))
  }

  /** Whitespace around the configured name never changes which backend is
      chosen. */
  lemma PaddingIgnored(pre: string, name: string, post: string)
    requires forall i :: 0 <= i < |pre| ==> IsSpace(pre[i])
    requires forall i :: 0 <= i < |post| ==> IsSpace(post[i])
    ensures GetBackend(pre + name + post).Ok? <==> GetBackend(name).Ok?
    ensures GetBackend(name).Ok? ==> GetBackend(pre + name + post) == GetBackend(name)
  {
    PaddedNormalForm(pre, name, post);
    SameNormalFormSameBackend(pre + name + post, name);
  }

  lemma PaddedNormalForm(pre: string, name: string, post: string)
    requires forall i :: 0 <= i < |pre| ==> IsSpace(pre[i])
    requires forall i :: 0 <= i < |post| ==> IsSpace(post[i])
    ensures Normalise(pre + name + post) == Normalise(name)
  {
    LowerPadded(pre, name, post);
    StripPadded(pre, Lower(name), post);
  }

  lemma LowerPadded(pre: string, name: string, post: string)
    requires forall i :: 0 <= i < |pre| ==> IsSpace(pre[i])
    requires forall i :: 0 <= i < |post| ==> IsSpace(post[i])
    ensures Lower(pre + name + post) == pre + (Lower(name) + post)
  {
    LowerSpaces(pre);
    LowerSpaces(post);
    assert pre + name + post == pre + (name + post);
    LowerConcat(pre, name + post);
    LowerConcat(name, post);
  }

  lemma StripPadded(pre: string, s: string, post: string)
    requires forall i :: 0 <= i < |pre| ==> IsSpace(pre[i])
    requires forall i :: 0 <= i < |post| ==> IsSpace(post[i])
    ensures Strip(pre + (s + post)) == Strip(s)
  {
    StripPaddedFront(pre, s + post);
    StripPaddedBack(s, post);
  }

  /** Names with the same normal form select the same backend. */
  lemma SameNormalFormSameBackend(a: string, b: string)
    requires Normalise(a) == Normalise(b)
    ensures GetBackend(a).Ok? <==> GetBackend(b).Ok?
    ensures GetBackend(b).Ok? ==> GetBackend(a) == GetBackend(b)
  {
  }

  /** Upper-case letters in the configured name select the same backend. */
  lemma CaseIgnored(name: string)
    ensures GetBackend(Lower(name)).Ok? <==> GetBackend(name).Ok?
    ensures GetBackend(name).Ok? ==> GetBackend(Lower(name)) == GetBackend(name)
  {
    var l := Lower(name);
    assert Lower(l) == l by {
      assert forall i :: 0 <= i < |l| ==> Lower(l)[i] == l[i];
    }
  }
}
