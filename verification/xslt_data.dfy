/**
 * The run-time data of the XSL transformation step, chiefly its cache of
 * compiled transformers keyed by XSL source (a file name, or the XSL text
 * itself).
 *
 * Reading the XSL source and compiling it (`TransformerFactory`,
 * `KettleVFS`) is not part of this model: the caller says whether
 * compilation succeeds, and a success yields a new transformer object. The
 * row metadata, factory and output properties are values of the type
 * parameters `Meta`, `Factory` and `Props`.
 */
module Xslt {
  import opened JavaLang

  /** A compiled transformer: the source it was compiled from and the parameters set on it. */
  class Transformer {
    const source: string
    var parameters: map<string, string>

    constructor (source: string)
      ensures this.source == source && parameters == map[]
    {
      this.source := source;
      parameters := map[];
    }

    /** `clearParameters`. */
    method ClearParameters()
      modifies this`parameters
      ensures parameters == map[]
    {
      parameters := map[];
    }

    method SetParameter(name: string, value: string)
      modifies this`parameters
      ensures parameters == old(parameters)[name := value]
    {
      parameters := parameters[name := value];
    }
  }

  class XsltData<Meta, Factory, Props> {
    var outputRowMeta: Option<Meta>
    var fieldPosition: int
    var fieldXslFilePosition: int
    var xslFilename: Option<string>
    var factory: Option<Factory>
    var transformers: Option<map<string, Transformer>>
    var nrParams: int
    var useParameters: bool
    var outputProperties: Option<Props>
    var setOutputProperties: bool

    /**
     * Every cached transformer was compiled from the source it is cached
     * under; so two keys never share a transformer.
     */
    ghost predicate Valid()
      reads this, if transformers.Some? then transformers.value.Values else {}
    {
      transformers.Some? ==> forall key :: key in transformers.value ==> transformers.value[key].source == key
    }

    /**
     * A new instance: both field positions -1, no XSL file name, an empty
     * cache, no parameters and no output properties to set.
     */
    constructor ()
      ensures fieldPosition == -1 && fieldXslFilePosition == -1 && xslFilename.None?
      ensures transformers == Some(map[]) && !useParameters && nrParams == 0 && !setOutputProperties
      ensures outputRowMeta.None? && factory.None? && outputProperties.None?
      ensures Valid()
    {
      outputRowMeta := None;
      fieldPosition := -1;
      fieldXslFilePosition := -1;
      xslFilename := None;
      factory := None;
      transformers := Some(map[]);
      nrParams := 0;
      useParameters := false;
      outputProperties := None;
      setOutputProperties := false;
    }

    /**
     * `createNewTemplate`: compile the source and cache the result under it.
     * When compiling fails (including a missing factory), the exception
     * leaves the cache untouched, since the entry is stored only afterwards.
     */
    method CreateNewTemplate(xslSource: string, compiles: bool) returns (t: Option<Transformer>)
      requires transformers.Some? && Valid()
      modifies this`transformers
      ensures t.Some? <==> factory.Some? && compiles
      ensures t.Some? ==> fresh(t.value) && t.value.source == xslSource && t.value.parameters == map[] &&
                          transformers == Some(old(transformers.value)[xslSource := t.value])
      ensures t.None? ==> transformers == old(transformers)
      ensures Valid()
    {
      if factory.None? || !compiles {
        return None;
      }
      var transformer := new Transformer(xslSource);
      transformers := Some(transformers.value[xslSource := transformer]);
      return Some(transformer);
    }

    /**
     * `getTemplate`: a cached transformer, with its parameters cleared and
     * the cache unchanged; otherwise a newly compiled one, stored under
     * exactly this key with every other entry untouched.
     */
    method GetTemplate(xslFilename: string, compiles: bool) returns (t: Option<Transformer>)
      requires transformers.Some? && Valid()
      modifies this`transformers, transformers.value.Values
      ensures Valid()
      ensures xslFilename in old(transformers.value) ==>
                t == Some(old(transformers.value[xslFilename])) && t.value.parameters == map[] &&
                transformers == old(transformers)
      ensures xslFilename !in old(transformers.value) && t.Some? ==>
                fresh(t.value) && transformers == Some(old(transformers.value)[xslFilename := t.value])
      ensures xslFilename !in old(transformers.value) && t.None? ==> transformers == old(transformers)
      ensures t.Some? ==> t.value.source == xslFilename && xslFilename in transformers.value &&
                          transformers.value[xslFilename] == t.value
      ensures forall key :: key in old(transformers.value) && key != xslFilename ==>
                old(transformers.value)[key].parameters == old(transformers.value[key].parameters)
    {
      if xslFilename in transformers.value {
        var template := transformers.value[xslFilename];
        template.ClearParameters();
        return Some(template);
      }
      t := CreateNewTemplate(xslFilename, compiles);
    }

    /** `dispose`: drop the cache, the factory, the output row metadata and the output properties. */
    method Dispose()
      modifies this`transformers, this`factory, this`outputRowMeta, this`outputProperties
      ensures transformers.None? && factory.None? && outputRowMeta.None? && outputProperties.None?
    {
      transformers := None;
      factory := None;
      outputRowMeta := None;
      outputProperties := None;
    }
  }
}
