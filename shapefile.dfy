/** The shapefile writer as the pipeline uses it: a field schema, then one
    polygon and one attribute record per feature, in insertion order. The
    binary .shp/.shx/.dbf encoding is not modelled; the object's state is the
    dataset it would write. */
module Shapefile {
  import opened Geometry
  import Decimal

  /** A dBASE field descriptor: name, type code, size and decimals. */
  datatype FieldDef = FieldDef(name: string, fieldType: char, size: nat, decimal: nat)

  /** The single text attribute both pipelines declare: field('id', 'C'),
      with the writer's default size 50 and no decimals. */
  const IdField := FieldDef("id", 'C', 50, 0)

  /** The id of the feature written at position k: f'weed_{k}'. */
  function RecordId(k: nat): string
  {
    "weed_" + Decimal.NatToString(k)
  }

  /** Ids are distinct for distinct positions. */
  lemma RecordIdInjective(k1: nat, k2: nat)
    ensures RecordId(k1) == RecordId(k2) <==> k1 == k2
  {
    if RecordId(k1) == RecordId(k2) {
      assert Decimal.NatToString(k1) == RecordId(k1)[5..] == RecordId(k2)[5..] == Decimal.NatToString(k2);
      Decimal.NatToStringInjective(k1, k2);
    }
  }

  /** A shapefile being written. Each shape is a list of polygon parts (rings);
      each record is the list of its attribute values. */
  class Writer {
    const path: string
    var fields: seq<FieldDef>
    var shapes: seq<seq<seq<Point>>>
    var records: seq<seq<string>>
    var closed: bool

    /** shapefile.Writer(path): an empty dataset with no fields. */
    constructor (path: string)
      ensures this.path == path
      ensures fields == [] && shapes == [] && records == [] && !closed
    {
      this.path := path;
      fields, shapes, records, closed := [], [], [], false;
    }

    /** w.field(name, fieldType) with the default size and decimals. Fields
        are declared before the first record, which fixes the table layout. */
    method Field(name: string, fieldType: char)
      requires !closed && records == []
      modifies this
      ensures fields == old(fields) + [FieldDef(name, fieldType, 50, 0)]
      ensures shapes == old(shapes) && records == old(records) && closed == old(closed)
    {
      fields := fields + [FieldDef(name, fieldType, 50, 0)];
    }

    /** w.poly(parts): appends one polygon shape. */
    method Poly(parts: seq<seq<Point>>)
      requires !closed
      modifies this
      ensures shapes == old(shapes) + [parts]
      ensures fields == old(fields) && records == old(records) && closed == old(closed)
    {
      shapes := shapes + [parts];
    }

    /** w.record(*values): appends one attribute record. */
    method Record(values: seq<string>)
      requires !closed
      modifies this
      ensures records == old(records) + [values]
      ensures fields == old(fields) && shapes == old(shapes) && closed == old(closed)
    {
      records := records + [values];
    }

    /** w.close(): the dataset is final. */
    method Close()
      modifies this
      ensures closed
      ensures fields == old(fields) && shapes == old(shapes) && records == old(records)
    {
      closed := true;
    }
  }
}
