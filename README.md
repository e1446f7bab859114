# watoki/factory resolution engine in Dafny

This project models the core of `watoki/factory`, a reflection-driven
dependency-injection container for PHP. It has two parts.

- **`Factory`** (`container.dfy`) keeps two maps, both keyed by a normalised
  class name:
  - a singleton map;
  - a provider registry, whose empty key holds the default provider.

  `getInstance` returns a registered singleton whatever the arguments.
  Otherwise it walks the requested class and its superclasses and hands the
  request to the provider of the first registered one, or to the default
  provider. `getSingleton` is the strict lookup. `setSingleton` and
  `setProvider` overwrite one key.
- **`Injector`** (`injection.dfy`) does three things:
  - it fills constructor parameters from the caller's argument bag, looking
    for a name key, then a position key, then the parameter's default, then
    the factory;
  - it rethrows an exception raised while filling a constructor's
    parameters or running it, prefixed with the class name. A PHP `\Error`
    passes through unwrapped, and so does any failure of a class that has
    no constructor, declared or inherited;
  - it injects factory instances into the properties an object's doc
    comments mark. Properties come from `@var` tags or from `@property`
    lines, and a filter callback selects them.

The model follows PHP 7 semantics: `\Error` is the throwable that
`catch (\Exception $e)` lets through, and `get_parent_class` returns false
for a name that denotes no class.

`names.dfy` holds `normalizeClass`, which lower-cases a name (ASCII) and trims
backslashes from both ends. `values.dfy` holds the shared value, argument-bag
and error types.

PHP reflection is replaced by data:
- `ClassTable` is the class hierarchy;
- `Param` and `ClassInfo` describe constructors;
- `PropertyDecl` and `Annotation` are the parsed doc comments.

The code the core calls but does not define is passed in as functions:
- `Provider::provide`;
- the factory's `getInstance` as seen from the injector;
- `ClassResolver::resolve`;
- `newInstanceArgs`;
- the filter callback.

State that the source updates in place stays imperative:
- `Factory` is a class with `singletons` and `providers` fields;
- `findMatchingProvider` is the source's `while` loop with its inner
  `foreach`;
- `injectMethodArguments` builds its argument array in a loop;
- `injectProperty` assigns a field of an `Instance` object.

The loops and the property assignment are proved against specification
functions: `FindMatchingProvider` against `MatchKey`, `InjectMethodArguments`
against `ResolveAll`, `InjectProperty` against `PropertyStep`, and the two
property-injection loops against `RunJobs`. The lemmas about those functions
carry the properties. The constructor, `GetInstance`, `GetSingleton`,
`SetSingleton` and `SetProvider` instead state their results and the new
state of both maps directly in their contracts. `InjectConstructor` states
its result in terms of `ResolveAll`.

## Model

| member | source | states |
|---|---|---|
| Names.ToLower | src/watoki/factory/Factory.php:80 | `strtolower` keeps the length, turns each ASCII capital into its own small letter and changes no other character |
| Names.Trim | src/watoki/factory/Factory.php:80 | What `trim` leaves is no longer than the input and neither starts nor ends with a trimmed character |
| Names.TrimIsCore | src/watoki/factory/Factory.php:80 | What `trim` leaves is the unchanged middle of the input, with a run of trimmed characters cut from each end and nothing else |
| Names.Normalize | src/watoki/factory/Factory.php:79-81 | The key is no longer than the name, holds no capital letter, and neither starts nor ends with a backslash |
| Names.NormalizeOrNull | src/watoki/factory/Factory.php:79-81 | A null name (the default-provider registration) has the empty key; any other name has its normalised key |
| Names.TrimLeftShape | src/watoki/factory/Factory.php:80 | Trimming the front leaves a suffix that starts outside the trimmed set, and every dropped character is in the set |
| Names.TrimRightShape | src/watoki/factory/Factory.php:80 | Trimming the back leaves a prefix that ends outside the trimmed set, and every dropped character is in the set |
| Names.NormalizeIsCore | src/watoki/factory/Factory.php:79-81 | The key is exactly the lower-cased name with a run of backslashes cut from each end |
| Names.NormalizeIdempotent | src/watoki/factory/Factory.php:79-81 | Normalising a key again gives the same key |
| Names.NormalizeIgnoresCase | src/watoki/factory/Factory.php:79-81 | Names that differ only in letter case share a key |
| Names.NormalizeIgnoresLeadingSeparator | src/watoki/factory/Factory.php:79-81 | A leading backslash (`\Foo\Bar`) does not change the key |
| Names.NormalizeIgnoresTrailingSeparator | src/watoki/factory/Factory.php:79-81 | A trailing backslash does not change the key |
| Names.NormalizeEmptyIff | src/watoki/factory/Factory.php:79-81 | A name has the empty key (the default provider's) if and only if it consists of backslashes only |
| Container.ClassKey | src/watoki/factory/Factory.php:74 | PHP finds a class by its name lower-cased after one leading separator is dropped; the key holds no capital letter and is no longer than the name. The two lemmas below tie it to the registry key |
| Container.ClassKeyIsNormalize | src/watoki/factory/Factory.php:74 | For a name with no trailing separator and at most one leading one, the class key and the registry key coincide |
| Container.ClassKeyIgnoresLeadingSeparator | src/watoki/factory/Factory.php:74 | One leading separator does not change the class a name denotes |
| Container.TrailingSeparatorChangesClassKey | src/watoki/factory/Factory.php:74 | A trailing separator keeps the registry key but changes the key under which PHP looks the class up, so the two names need not denote the same class |
| Container.ClassTable.ParentOf | src/watoki/factory/Factory.php:74 | `get_parent_class` gives the superclass of the class the name denotes, or false; in an acyclic hierarchy the parent ranks strictly below the child, so the walk ends |
| Container.ClassTable.Chain | src/watoki/factory/Factory.php:67-74 | The visited chain starts at the requested class when its name is truthy and is empty when it is not; it is finite for an acyclic hierarchy. The three lemmas below fix the rest of it |
| Container.ChainTruthy | src/watoki/factory/Factory.php:67 | Every class the walk visits has a truthy name |
| Container.ChainLinks | src/watoki/factory/Factory.php:74 | Each class of the chain after the first is `get_parent_class` of the one before it |
| Container.ChainEnds | src/watoki/factory/Factory.php:67-75 | The walk stops at the last class of the chain: its parent is not truthy |
| Container.MatchKey | src/watoki/factory/Factory.php:66-77 | The selected key is always either a registered key or the default key |
| Container.MatchKeyFirst | src/watoki/factory/Factory.php:66-77 | The provider of the first class on the superclass chain that has a registered key is the one selected |
| Container.MatchKeyDefault | src/watoki/factory/Factory.php:66-77 | If no class on the chain has a registered key, the default provider is selected |
| Container.MatchKeyOnChain | src/watoki/factory/Factory.php:74 | Only the superclass chain is consulted: a non-default key that no class of the chain normalises to (an interface's, say) is never selected |
| Container.Factory.constructor | src/watoki/factory/Factory.php:15-18 | A new factory holds itself as the singleton under the key of its own class name and the default provider under the empty key, and nothing else |
| Container.Factory.Isset | src/watoki/factory/Factory.php:33 | `isset` on the singleton map: the key is present and its value is not null |
| Container.Factory.GetInstance | src/watoki/factory/Factory.php:30-38 | A non-null singleton under the key of the name is returned as is; otherwise the matched provider is called with the name as given and the arguments unchanged |
| Container.Factory.GetSingleton | src/watoki/factory/Factory.php:49-56 | Succeeds exactly when a non-null singleton is stored under the key, returning it; otherwise fails naming the requested class |
| Container.Factory.SetSingleton | src/watoki/factory/Factory.php:58-60 | Returns the instance, overwrites only its key in the singleton map and leaves the providers alone |
| Container.Factory.SetProvider | src/watoki/factory/Factory.php:62-64 | Overwrites only its key in the registry, so the last registration wins, and leaves the singletons alone |
| Container.Factory.FindMatchingProvider | src/watoki/factory/Factory.php:66-77 | The walk up the superclass chain with its inner scan of the registry returns the provider of the key the chain specifies |
| Container.SingletonShadowsProviders | src/watoki/factory/Factory.php:30-35 | After a non-null singleton is set, any name with the same key obtains it, whatever the arguments and providers |
| Injection.ResolveParam | src/watoki/factory/Injector.php:34-45 | A parameter without a class resolves exactly when it has a name key, a position key or a default. A failure means none of the three exists, and without a class the failure names the parameter and the supplied keys |
| Injection.ResolveParamPrecedence | src/watoki/factory/Injector.php:34-45 | Each parameter gets the name-keyed argument, else the position-keyed one, else its default, else the factory's instance of its class, else an error naming it with the supplied keys. A supplied null counts as given |
| Injection.FactoryOnlyForMissingTypedParams | src/watoki/factory/Injector.php:40-41 | The factory's answer matters only for a parameter with no name key, no position key and no default but with a class |
| Injection.Put | src/watoki/factory/Injector.php:46 | Assigning a key the array does not hold appends one entry at the end |
| Injection.PutReplaces | src/watoki/factory/Injector.php:46 | Assigning a key the array already holds overwrites that entry in place and keeps the order |
| Injection.ResolveAll | src/watoki/factory/Injector.php:31-48 | The argument array built left to right: no parameters give an empty array, and a built array has at most one entry per parameter |
| Injection.ResolveAllSucceeds | src/watoki/factory/Injector.php:31-49 | An argument array is produced if and only if every parameter resolves |
| Injection.ResolveAllEntries | src/watoki/factory/Injector.php:31-48 | A produced array has exactly one entry per parameter, in declaration order, keyed by the parameter's name and holding its resolved value |
| Injection.ResolveAllPrefixFails | src/watoki/factory/Injector.php:33-45 | Once the parameters up to some point fail, the whole call fails with that error |
| Injection.ResolveAllFirstFailure | src/watoki/factory/Injector.php:42-45 | A failure is the error of the first parameter that cannot be resolved, and no partial array is returned |
| Injection.InjectMethodArguments | src/watoki/factory/Injector.php:31-49 | The loop returns exactly the specified argument array or the specified error |
| Injection.InjectConstructor | src/watoki/factory/Injector.php:17-29 | An unknown class is an error. A class with no constructor, declared or inherited, is built with no arguments whatever is supplied, and its failure is not caught. Otherwise it succeeds exactly when the arguments resolve and the constructor succeeds, returning the constructor's result; an exception from either is rethrown tagged with the class name, and a PHP `\Error` passes through unchanged |
| Injection.ShortName | src/watoki/factory/Injector.php:92 | The short class name in the error message is the part of the name after its last namespace separator |
| Injection.PropertyStep | src/watoki/factory/Injector.php:88-102 | An injection succeeds exactly when the resolver finds a class and the factory builds it; it keeps the set of declared properties and the declared/dynamic split |
| Injection.PropertyStepSpec | src/watoki/factory/Injector.php:88-102 | No resolved class is an error naming the property, the short class name and the type; a factory failure propagates. Otherwise the declared property is set if the class has one, else a dynamic one, and no other property changes |
| Injection.InjectProperty | src/watoki/factory/Injector.php:88-102 | The object ends in the specified state; on failure it is unchanged |
| Injection.RunJobs | src/watoki/factory/Injector.php:76-85 | Injections run in order and the first exception ends the run; the run keeps the declared properties and the declared/dynamic split. The lemmas below say what it assigns and when it fails |
| Injection.RunJobsSucceeds | src/watoki/factory/Injector.php:76-85 | A run completes if and only if every injection in it succeeds, i.e. the resolver finds its class and the factory builds it |
| Injection.RunJobsFirstFailure | src/watoki/factory/Injector.php:76-85 | A failed run reports the error of its first failing injection and leaves the object as the injections before it left it |
| Injection.RunJobsAssigns | src/watoki/factory/Injector.php:95-101 | After a completed run, the property of an injection that no later injection overwrites holds the factory's instance of its resolved class: the declared property if the class has one, else a dynamic one |
| Injection.RunJobsStops | src/watoki/factory/Injector.php:76-85 | After a failed injection, the remaining ones change nothing |
| Injection.RunJobsFrame | src/watoki/factory/Injector.php:95-101 | A run of injections keeps declared and dynamic properties disjoint and the declared set unchanged, and leaves every property it does not name untouched |
| Injection.VarEligible | src/watoki/factory/Injector.php:78-82 | A declared property is injected only if its doc comment has a `@var` tag and the filter accepts the doc comment |
| Injection.VarJobs | src/watoki/factory/Injector.php:76-85 | The injections `injectProperties` performs, one per eligible property, in declaration order: `VarJobsSelect` fixes which, `VarJobsAt` where each one sits |
| Injection.VarJobsAt | src/watoki/factory/Injector.php:76-85 | The injection of an eligible declaration comes right after those of the declarations before it, and only a later eligible declaration of the same name overwrites its property |
| Injection.EligiblePropertyInjected | src/watoki/factory/Injector.php:76-85 | After `injectProperties` completes, a property with a `@var` tag that the filter accepts holds the factory's instance of the class its tag names (unless a later one of the same name overwrites it) |
| Injection.VarJobsSelect | src/watoki/factory/Injector.php:76-85 | The properties `injectProperties` injects are exactly the declared ones with a `@var` tag whose doc comment the filter accepts |
| Injection.VarJobsPrefixFailure | src/watoki/factory/Injector.php:76-85 | When an injection fails, the outcome is that of the properties up to and including the failing one |
| Injection.SkippedPropertiesUntouched | src/watoki/factory/Injector.php:80-82 | A property without a `@var` tag, or one the filter rejects, keeps its value |
| Injection.InjectProperties | src/watoki/factory/Injector.php:72-86 | The loop leaves the object in the specified state and reports the first failure |
| Injection.AnnotationEligible | src/watoki/factory/Injector.php:63-66 | A `@property` line is injected only if the filter accepts its text with surrounding whitespace trimmed |
| Injection.AnnotationJobs | src/watoki/factory/Injector.php:63-69 | The injections `injectPropertyAnnotations` performs, one per accepted line, in the order of the doc comment: `AnnotationJobsSelect` fixes which, `AnnotationJobsAt` where each one sits |
| Injection.AnnotationJobsAt | src/watoki/factory/Injector.php:63-69 | The injection of an accepted line comes right after those of the lines before it, and only a later accepted line naming the same property overwrites it |
| Injection.AcceptedAnnotationInjected | src/watoki/factory/Injector.php:63-69 | After `injectPropertyAnnotations` completes, the property of an accepted `@property` line holds the factory's instance of the class the line names (unless a later accepted line names the same property) |
| Injection.AnnotationJobsSelect | src/watoki/factory/Injector.php:63-69 | The properties `injectPropertyAnnotations` injects are exactly those of the `@property` lines whose trimmed text the filter accepts |
| Injection.AnnotationJobsPrefixFailure | src/watoki/factory/Injector.php:63-69 | When an injection fails, the outcome is that of the lines up to and including the failing one |
| Injection.RejectedAnnotationsUntouched | src/watoki/factory/Injector.php:63-66 | A property that no accepted `@property` line names keeps its value |
| Injection.InjectPropertyAnnotations | src/watoki/factory/Injector.php:56-70 | The loop leaves the object in the specified state and reports the first failure |

## Left out

- PHP reflection (`ReflectionClass`, `getParameters`, `getConstructor`, `setAccessible`). Its answers are inputs to the model.
- `get_parent_class` is a lookup in `ClassTable.parent` under the key PHP uses to find a class (`ClassKey`), not under the registry key: a name with a trailing or doubled leading separator denotes no class, so the walk stops there. Autoloading is not modelled; the table lists every loaded class. The `rank` map witnesses that the hierarchy is acyclic, as PHP guarantees.
- The regular expressions that extract `@var` types and `@property` lines from doc comments (src/watoki/factory/Injector.php:61, 78). Their matches are inputs to the model.
- `ClassResolver`, `Provider` and `DefaultProvider` are not part of this model. `resolve` and `provide` are uninterpreted functions.
- The recursion `getInstance` → provider → injector → `getInstance` is modelled as one step. The injector sees the factory as a function, so nothing about unbounded recursion is stated.
- PHP 8 behaviour: since PHP 8.0, `get_parent_class` throws a TypeError for a name that denotes no class (`Derived\`, say) instead of returning false. On PHP 8 such a `getInstance` fails at Factory.php:74 rather than reaching the default provider; the model follows PHP 7 there.
- Circular dependencies are not detected by the code, and nothing about them is claimed.
- Exception message text and the `json_encode` of the supplied keys. Errors are a datatype that carries the data of the messages, except that `MissingArgument` keeps the supplied keys as a set: the order of `array_keys($args)` is dropped, because the argument bag is a map.
- Injection.InjectConstructor: the source rethrows a new `\Exception` that keeps only the cause's message and sets no previous exception. The model keeps the whole cause as the stand-in for that message.
- `getClass()` throwing for a type hint that names no class is not modelled. A parameter's class is either present or absent.
- Container.Factory.FindMatchingProvider: PHP's loose `==` between a key and the normalised name is string equality, and numeric-string array keys are not coerced to integers.
- Names.Normalize: `strtolower` is modelled for ASCII only.
- `static $CLASS` is never read by the core and is left out.
- `__set` and other magic methods of the target object are not modelled. A dynamic property is a plain map entry.
- Injection.ResolveAllEntries: the one-entry-per-parameter property assumes distinct parameter names, which PHP enforces. `Put` still models what a duplicate name would do.
- Object identity (`$this`, `new`) is modelled through Dafny object references. The instances providers build are opaque values.
