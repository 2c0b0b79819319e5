/** ScientificContainer<int>: a list of (key, object) pairs, the set of keys seen, a map of
    per-key metadata tuples and one optional callback, kept consistent by add_element and
    add_metadata. Also the string overload of process_data and the message of
    DuplicateElementException. */
module ScientificContainerModel {
  import opened Wrappers

  /** The three ScientificObject subclasses; only their identity matters here. */
  datatype ScientificObject = VectorCalculation | MatrixCalculation | TensorCalculation

  /** A `std::function<void()>`, known only by an identifier; None is the empty function. */
  datatype Callback = Callback(id: nat)

  /** The metadata tuple (int, double, string). */
  datatype Metadata = Metadata(count: int, value: real, tag: string)

  /** The exceptions thrown: DuplicateElementException and std::runtime_error both carry a
      what() message, as does std::invalid_argument. */
  datatype ContainerError =
    | DuplicateElement(message: string)
    | RuntimeError(message: string)
    | InvalidArgument(message: string)

  // ---------------------------------------------------------------------------------------
  // std::to_string on int, and the exception message built from it

  function DigitChar(d: nat): char
    requires d < 10
  {
    "0123456789"[d]
  }

  function DigitValue(c: char): nat {
    if '0' <= c <= '9' then (c as int - '0' as int) as nat else 0
  }

  /** The decimal digits of n, most significant first, with no leading zeros. */
  function NatToString(n: nat): (s: string)
    ensures |s| >= 1
    ensures forall i :: 0 <= i < |s| ==> '0' <= s[i] <= '9'
    decreases n
  {
    if n < 10 then [DigitChar(n)] else NatToString(n / 10) + [DigitChar(n % 10)]
  }

  /** std::to_string(int): a '-' sign for negative values, then the digits of |i|. */
  function IntToString(i: int): (s: string)
    ensures |s| >= 1
    ensures (s[0] == '-') <==> i < 0
  {
    if i < 0 then "-" + NatToString(-i) else NatToString(i)
  }

  /** Reading decimal digits back, the inverse of NatToString. */
  function ParseDigits(s: string): nat
    decreases |s|
  {
    if s == [] then 0 else ParseDigits(s[..|s| - 1]) * 10 + DigitValue(s[|s| - 1])
  }

  lemma {:induction false} ParseNatToString(n: nat)
    ensures ParseDigits(NatToString(n)) == n
    decreases n
  {
    var s := NatToString(n);
    if n >= 10 {
      ParseNatToString(n / 10);
      assert s[..|s| - 1] == NatToString(n / 10);
      assert DigitValue(DigitChar(n % 10)) == n % 10;
    } else {
      assert DigitValue(DigitChar(n)) == n;
    }
  }

  lemma NatToStringInjective(m: nat, n: nat)
    requires NatToString(m) == NatToString(n)
    ensures m == n
  {
    ParseNatToString(m);
    ParseNatToString(n);
  }

  /** Reading a signed decimal back, the inverse of IntToString. */
  function ParseInt(s: string): int {
    if |s| > 0 && s[0] == '-' then -(ParseDigits(s[1..]) as int) else ParseDigits(s)
  }

  /** std::to_string loses nothing: the value can be read back from its string. */
  lemma ParseIntToString(i: int)
    ensures ParseInt(IntToString(i)) == i
  {
    if i < 0 {
      ParseNegativeToString(i);
    } else {
      ParseNonNegativeToString(i);
    }
  }

  lemma ParseNegativeToString(i: int)
    requires i < 0
    ensures ParseInt(IntToString(i)) == i
  {
    var m: nat := -i;
    var digits := NatToString(m);
    assert IntToString(i) == "-" + digits;
    DropSign(digits);
    ParseNatToString(m);
    assert ParseDigits(digits) == m;
    assert IntToString(i)[0] == '-';
  }

  lemma ParseNonNegativeToString(i: int)
    requires i >= 0
    ensures ParseInt(IntToString(i)) == i
  {
    ParseNatToString(i);
  }

  lemma DropSign(digits: string)
    ensures ("-" + digits)[1..] == digits
  {
  }

  /** Different keys give different texts, so the message names the key unambiguously. */
  lemma IntToStringInjective(a: int, b: int)
    requires IntToString(a) == IntToString(b)
    ensures a == b
  {
    ParseIntToString(a);
    ParseIntToString(b);
  }

  /** DuplicateElementException(to_string(key)).what(). */
  function DuplicateMessage(key: int): (m: string)
    ensures |m| == 19 + |IntToString(key)|
    ensures m[..19] == "Duplicate element: " && m[19..] == IntToString(key)
  {
    "Duplicate element: " + IntToString(key)
  }

  lemma DuplicateMessageInjective(a: int, b: int)
    requires DuplicateMessage(a) == DuplicateMessage(b)
    ensures a == b
  {
    IntToStringInjective(a, b);
  }

  // ---------------------------------------------------------------------------------------
  // process_data<std::string>

  /** The reversed string `std::string(data.rbegin(), data.rend())`. */
  function Reverse(s: string): (r: string)
    ensures |r| == |s|
    ensures forall i :: 0 <= i < |s| ==> r[i] == s[|s| - 1 - i]
    decreases |s|
  {
    if s == [] then [] else Reverse(s[1..]) + [s[0]]
  }

  /** Reversing twice gives the string back. */
  lemma ReverseInvolutive(s: string)
    ensures Reverse(Reverse(s)) == s
  {
    var r := Reverse(Reverse(s));
    assert forall i :: 0 <= i < |s| ==> r[i] == Reverse(s)[|s| - 1 - i] == s[i];
  }

  /** process_data on a string: invalid_argument when empty, else the reversed string that
      it emits. */
  function ProcessString(data: string): (r: Result<string, ContainerError>)
    ensures r.Failure? <==> data == []
    ensures r.Failure? ==> r.error == InvalidArgument("String cannot be empty.")
    ensures r.Success? ==> |r.value| == |data| && Reverse(r.value) == data
  {
    if data == [] then
      Failure(InvalidArgument("String cannot be empty."))
    else
      ReverseInvolutive(data);
      Success(Reverse(data))
  }

  // ---------------------------------------------------------------------------------------
  // the container

  /** The keys of the list, in list order. */
  function Keys(entries: seq<(int, ScientificObject)>): (ks: seq<int>)
    ensures |ks| == |entries|
    ensures forall i :: 0 <= i < |entries| ==> ks[i] == entries[i].0
  {
    seq(|entries|, i requires 0 <= i < |entries| => entries[i].0)
  }

  predicate Distinct(ks: seq<int>) {
    forall i, j :: 0 <= i < j < |ks| ==> ks[i] != ks[j]
  }

  /** The keys of xs that satisfy the condition, in their original order. */
  function Filter(xs: seq<int>, condition: int -> bool): seq<int>
    decreases |xs|
  {
    if xs == [] then []
    else Filter(xs[..|xs| - 1], condition) + (if condition(xs[|xs| - 1]) then [xs[|xs| - 1]] else [])
  }

  /** Filter keeps exactly the elements that satisfy the condition. */
  lemma {:induction false} FilterMembers(xs: seq<int>, condition: int -> bool, x: int)
    ensures x in Filter(xs, condition) <==> (x in xs && condition(x))
    decreases |xs|
  {
    if xs != [] {
      var init := xs[..|xs| - 1];
      FilterMembers(init, condition, x);
      assert xs == init + [xs[|xs| - 1]];
    }
  }

  /** Filter only drops elements: its length is at most the input's, with equality exactly
      when every element satisfies the condition. */
  lemma {:induction false} FilterLength(xs: seq<int>, condition: int -> bool)
    ensures |Filter(xs, condition)| <= |xs|
    ensures |Filter(xs, condition)| == |xs| <==> forall i :: 0 <= i < |xs| ==> condition(xs[i])
    decreases |xs|
  {
    if xs != [] {
      var init := xs[..|xs| - 1];
      FilterLength(init, condition);
      assert forall i :: 0 <= i < |init| ==> init[i] == xs[i];
    }
  }

  class ScientificContainer {
    var container: seq<(int, ScientificObject)>
    var metadata: map<int, Metadata>
    var uniqueElements: set<int>
    var metadataCallback: Option<Callback>

    /** The set holds exactly the list's keys, and no key appears twice in the list. */
    ghost predicate Valid()
      reads this
    {
      && (forall k :: k in uniqueElements <==> k in Keys(container))
      && Distinct(Keys(container))
    }

    constructor ()
      ensures Valid()
      ensures container == [] && metadata == map[] && uniqueElements == {} && metadataCallback == None
    {
      container, metadata, uniqueElements, metadataCallback := [], map[], {}, None;
    }

    /** add_element: a key already in the set throws DuplicateElementException and changes
        nothing; otherwise (key, obj) is appended and the key inserted. */
    method AddElement(key: int, obj: ScientificObject) returns (o: Outcome<ContainerError>)
      requires Valid()
      modifies this
      ensures Valid()
      ensures o.Fail? <==> key in old(uniqueElements)
      ensures o.Fail? ==> o.error == DuplicateElement(DuplicateMessage(key))
      ensures o.Fail? ==> container == old(container) && uniqueElements == old(uniqueElements)
      ensures o.Pass? ==> container == old(container) + [(key, obj)]
                          && uniqueElements == old(uniqueElements) + {key}
      ensures metadata == old(metadata) && metadataCallback == old(metadataCallback)
    {
      if key in uniqueElements {
        return Fail(DuplicateElement(DuplicateMessage(key)));
      }
      container := container + [(key, obj)];
      uniqueElements := uniqueElements + {key};
      o := Pass;
      assert Keys(container) == Keys(old(container)) + [key];
    }

    /** add_metadata: a key that already has metadata throws runtime_error and changes
        nothing; otherwise the tuple is stored, whether or not the key is in the list, and
        the callback is replaced only when a non-empty one is given. */
    method AddMetadata(key: int, data: Metadata, callback: Option<Callback>) returns (o: Outcome<ContainerError>)
      requires Valid()
      modifies this
      ensures Valid()
      ensures o.Fail? <==> key in old(metadata)
      ensures o.Fail? ==> o.error == RuntimeError("Metadata for this key already exists.")
      ensures o.Fail? ==> metadata == old(metadata) && metadataCallback == old(metadataCallback)
      ensures o.Pass? ==> metadata == old(metadata)[key := data]
      ensures o.Pass? ==> metadataCallback == (if callback.Some? then callback else old(metadataCallback))
      ensures container == old(container) && uniqueElements == old(uniqueElements)
    {
      if key in metadata {
        return Fail(RuntimeError("Metadata for this key already exists."));
      }
      metadata := metadata[key := data];
      if callback.Some? {
        metadataCallback := callback;
      }
      o := Pass;
    }

    /** filter_elements: walks the list in order and reports every key that satisfies the
        condition; the container itself is not changed. */
    method FilterElements(condition: int -> bool) returns (reported: seq<int>)
      requires Valid()
      ensures reported == Filter(Keys(container), condition)
      ensures forall k :: k in reported <==> (k in uniqueElements && condition(k))
    {
      var keys := Keys(container);
      reported := [];
      for i := 0 to |container|
        invariant reported == Filter(keys[..i], condition)
      {
        assert keys[..i + 1][..i] == keys[..i];
        if condition(container[i].0) {
          reported := reported + [container[i].0];
        }
      }
      assert keys[..|container|] == keys;
      forall k
        ensures k in reported <==> (k in uniqueElements && condition(k))
      {
        FilterMembers(keys, condition, k);
      }
    }

    /** begin()/end(): the pairs in insertion order, each key once. */
    function Entries(): (entries: seq<(int, ScientificObject)>)
      requires Valid()
      reads this
      ensures Distinct(Keys(entries))
      ensures forall k :: k in uniqueElements <==> k in Keys(entries)
    {
      container
    }
  }
}
