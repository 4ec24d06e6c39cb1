/** An operation of the operations document (include/operation/operation.hpp):
    five settings, each read from the attribute of the same name. */
module Operation {
  import opened Parser

  /** `m_name`, `m_type` (a keyword in Dafny, hence `kind`), `m_func`,
      `m_attrib` and `m_filter`. */
  datatype Operation = Operation(name: string, kind: string, func: string, attrib: string, filter: string)

  /** The attribute keys the five fields come from. */
  predicate IsSetting(key: string) {
    key == "name" || key == "type" || key == "func" || key == "attrib" || key == "filter"
  }

  /** The field that the attribute `key` sets. */
  function Setting(op: Operation, key: string): string
    requires IsSetting(key)
  {
    if key == "name" then op.name
    else if key == "type" then op.kind
    else if key == "func" then op.func
    else if key == "attrib" then op.attrib
    else op.filter
  }

  /** The constructor `Operation(XML_Element const &)`. */
  function FromElement(e: XmlElement): Operation {
    Operation(GetAttribute(e.attributes, "name"), GetAttribute(e.attributes, "type"),
              GetAttribute(e.attributes, "func"), GetAttribute(e.attributes, "attrib"),
              GetAttribute(e.attributes, "filter"))
  }

  /** Each field holds the value of the first attribute with its key. */
  lemma FromElementFirstWins(e: XmlElement, i: nat)
    requires i < |e.attributes| && IsSetting(e.attributes[i].key)
    requires forall j :: 0 <= j < i ==> e.attributes[j].key != e.attributes[i].key
    ensures Setting(FromElement(e), e.attributes[i].key) == e.attributes[i].value
  {
    GetAttributeFirst(e.attributes, e.attributes[i].key, i);
  }

  /** A setting without an attribute is empty: there are no defaults. */
  lemma FromElementMissing(e: XmlElement, key: string)
    requires IsSetting(key)
    requires forall j :: 0 <= j < |e.attributes| ==> e.attributes[j].key != key
    ensures Setting(FromElement(e), key) == []
  {
    GetAttributeMissing(e.attributes, key);
  }

  /** Only the attributes matter: name, level, children and content of the
      element are not read. */
  lemma FromElementReadsAttributes(e: XmlElement, f: XmlElement)
    requires e.attributes == f.attributes
    ensures FromElement(e) == FromElement(f)
  {
  }
}
